/** internal/pool/pool.go: a sync.Pool of pointers whose type has a generated Reset. */
module ObjectPool {
  import opened Wrappers
  import opened ResetGenerator
  import opened ResetSemantics

  /** What a *T points to. */
  class Object {
    var value: Value

    constructor (value: Value)
      ensures this.value == value
    {
      this.value := value;
    }
  }

  ghost predicate Different(xs: seq<Object?>) {
    forall i, j | 0 <= i < j < |xs| && xs[i] != null :: xs[i] != xs[j]
  }

  lemma DifferentSnoc(xs: seq<Object?>, x: Object?)
    ensures Different(xs + [x]) <==> Different(xs) && (x != null ==> x !in xs)
  {
    var ys := xs + [x];
    assert forall i | 0 <= i < |xs| :: ys[i] == xs[i];
    if Different(ys) {
      assert forall i | 0 <= i < |xs| && ys[i] != null :: ys[i] != ys[|xs|];
    }
  }

  class Pool {
    const env: Types
    const t: TypeExpr
    var items: seq<Object?>

    /** Every pooled object is in reset form. */
    ghost predicate Valid()
      reads this, items
    {
      && EnvOk(env) && Named(t)
      && (forall i | 0 <= i < |items| && items[i] != null :: ResetForm(env, t, items[i].value))
    }

    /** No object is pooled twice. */
    ghost predicate NoneTwice()
      reads this
    {
      Different(items)
    }

    constructor (env: Types, t: TypeExpr)
      requires EnvOk(env) && Named(t)
      ensures Valid() && NoneTwice() && items == [] && this.env == env && this.t == t
    {
      this.env, this.t, items := env, t, [];
    }

    /**
     * sync.Pool gives back any pooled item, or calls New, which yields the zero value of a pointer
     * type, nil. choice is the runtime's pick.
     */
    method Get(choice: Option<nat>) returns (x: Object?)
      requires Valid()
      modifies this
      ensures Valid()
      ensures if choice.Some? && choice.value < |old(items)|
              then x == old(items)[choice.value] && items == old(items)[..choice.value] + old(items)[choice.value + 1..]
              else x == null && items == old(items)
      ensures x != null ==> ResetForm(env, t, x.value)
      ensures old(NoneTwice()) ==> NoneTwice() && (x != null ==> x !in items)
    {
      if choice.None? || choice.value >= |items| {
        return null;
      }
      x := items[choice.value];
      items := items[..choice.value] + items[choice.value + 1..];
    }

    /**
     * Resets the object and pools it. An object that is already pooled is pooled once more, and from
     * then on can be handed out twice.
     */
    method Put(x: Object?)
      requires Valid()
      requires x != null ==> HasType(env, t, x.value)
      modifies this, x
      ensures Valid() && items == old(items) + [x]
      ensures x != null ==> x.value == ResetNamed(env, t, old(x.value))
      ensures NoneTwice() <==> old(NoneTwice()) && (x != null ==> x !in old(items))
    {
      if x != null {
        FixedExactly(env, t, x.value);
        NamedResets(env, t, x.value);
        x.value := ResetNamed(env, t, x.value);
      }
      DifferentSnoc(items, x);
      items := items + [x];
    }
  }

  // ---------- every sequence of uses ----------

  /** Objects by number; the last four fields are history. */
  datatype State = State(
    values: map<nat, Value>,
    held: set<nat>,          // objects the clients use
    pooled: set<nat>,
    put: seq<nat>,
    got: seq<nat>,
    evicted: seq<nat>,
    handedOut: seq<Value>)

  datatype Use =
    | Allocate(id: nat, v: Value)
    | Write(id: nat, v: Value)
    | Put(id: nat)
    | Get(id: nat)
    | Evict(id: nat)  // the garbage collector empties the pool at will

  /** Clients write and put only what they hold; putting gives the object up. */
  ghost predicate Enabled(env: Types, t: TypeExpr, s: State, u: Use) {
    match u
    case Allocate(id, v) => id !in s.values && HasType(env, t, v)
    case Write(id, v) => id in s.held && HasType(env, t, v)
    case Put(id) => id in s.held
    case Get(id) => id in s.pooled
    case Evict(id) => id in s.pooled
  }

  ghost function Step(env: Types, t: TypeExpr, s: State, u: Use): State {
    if !Enabled(env, t, s, u) then s
    else
      match u
      case Allocate(id, v) => s.(values := s.values[id := v], held := s.held + {id})
      case Write(id, v) => s.(values := s.values[id := v])
      case Put(id) =>
        if id !in s.values then s
        else s.(values := s.values[id := ResetNamed(env, t, s.values[id])],
                held := s.held - {id}, pooled := s.pooled + {id}, put := s.put + [id])
      case Get(id) =>
        if id !in s.values then s
        else s.(held := s.held + {id}, pooled := s.pooled - {id}, got := s.got + [id],
                handedOut := s.handedOut + [s.values[id]])
      case Evict(id) => s.(pooled := s.pooled - {id}, evicted := s.evicted + [id])
  }

  const UNUSED := State(map[], {}, {}, [], [], [], [])

  ghost function Exec(env: Types, t: TypeExpr, uses: seq<Use>): State {
    if uses == [] then UNUSED else Step(env, t, Exec(env, t, uses[..|uses| - 1]), uses[|uses| - 1])
  }

  ghost predicate Inv(env: Types, t: TypeExpr, s: State) {
    && s.held !! s.pooled
    && (forall id <- s.held :: id in s.values && HasType(env, t, s.values[id]))
    && (forall id <- s.pooled :: id in s.values && HasType(env, t, s.values[id]) && ResetForm(env, t, s.values[id]))
    && (forall v <- s.handedOut :: ResetForm(env, t, v))
  }

  /** Every put is matched by one hand-out, one eviction, or an object still pooled. */
  ghost predicate Balanced(s: State) {
    multiset(s.put) == multiset(s.got) + multiset(s.evicted) + multiset(s.pooled)
  }

  lemma StepInv(env: Types, t: TypeExpr, s: State, u: Use)
    requires EnvOk(env) && Named(t) && Inv(env, t, s)
    ensures Inv(env, t, Step(env, t, s, u))
  {
    if Enabled(env, t, s, u) && u.Put? {
      PutForm(env, t, s.values[u.id]);
    }
    hide HasType, ResetForm, ResetNamed, EnvOk;
  }

  lemma BalancedStep(env: Types, t: TypeExpr, s: State, u: Use)
    requires Inv(env, t, s) && Balanced(s)
    ensures Balanced(Step(env, t, s, u))
  {
    hide HasType, ResetForm, ResetNamed, EnvOk;
    var r := Step(env, t, s, u);
    if Enabled(env, t, s, u) {
      match u
      case Put(id) =>
        assert r.put == s.put + [id] && r.pooled == s.pooled + {id} && id !in s.pooled;
        hide *;
        Gain(s.pooled, id);
        Onto(s.put, id);
      case Get(id) =>
        assert r.got == s.got + [id] && r.pooled == s.pooled - {id} && id in s.pooled;
        hide *;
        Lose(s.pooled, id);
        Onto(s.got, id);
      case Evict(id) =>
        assert r.evicted == s.evicted + [id] && r.pooled == s.pooled - {id} && id in s.pooled;
        hide *;
        Lose(s.pooled, id);
        Onto(s.evicted, id);
      case _ =>
    }
  }

  lemma Onto(ids: seq<nat>, id: nat)
    ensures multiset(ids + [id]) == multiset(ids) + multiset{id}
  {
  }

  lemma Lose(ids: set<nat>, id: nat)
    requires id in ids
    ensures multiset(ids) == multiset(ids - {id}) + multiset{id}
  {
    Gain(ids - {id}, id);
    assert ids - {id} + {id} == ids;
  }

  lemma Gain(ids: set<nat>, id: nat)
    requires id !in ids
    ensures multiset(ids + {id}) == multiset(ids) + multiset{id}
  {
  }

  lemma PutForm(env: Types, t: TypeExpr, v: Value)
    requires EnvOk(env) && Named(t) && HasType(env, t, v)
    ensures var r := ResetNamed(env, t, v); HasType(env, t, r) && ResetForm(env, t, r)
  {
    NamedResets(env, t, v);
    NamedKeepsType(env, t, v);
  }

  lemma {:induction false} ExecInv(env: Types, t: TypeExpr, uses: seq<Use>)
    requires EnvOk(env) && Named(t)
    ensures Inv(env, t, Exec(env, t, uses)) && Balanced(Exec(env, t, uses))
  {
    if uses != [] {
      ExecInv(env, t, uses[..|uses| - 1]);
      BalancedStep(env, t, Exec(env, t, uses[..|uses| - 1]), uses[|uses| - 1]);
      StepInv(env, t, Exec(env, t, uses[..|uses| - 1]), uses[|uses| - 1]);
    }
  }

  /**
   * Over any sequence of uses in which a client gives up what it puts: every object handed out is
   * in reset form, an object is never both pooled and in use, and each put leads to at most one
   * hand-out of that object.
   */
  lemma PoolSafety(env: Types, t: TypeExpr, uses: seq<Use>, id: nat)
    requires EnvOk(env) && Named(t)
    ensures var s := Exec(env, t, uses);
      && (forall v <- s.handedOut :: ResetForm(env, t, v))
      && s.held !! s.pooled
      && multiset(s.put)[id] == multiset(s.got)[id] + multiset(s.evicted)[id] + (if id in s.pooled then 1 else 0)
  {
    ExecInv(env, t, uses);
  }

  /**
   * Use and reuse, after any other uses: an object that is held, written, put and handed out again
   * comes back reset, to its only holder.
   */
  lemma Reuse(env: Types, t: TypeExpr, uses: seq<Use>, id: nat, v: Value)
    requires EnvOk(env) && Named(t) && HasType(env, t, v)
    requires id !in Exec(env, t, uses).values || id in Exec(env, t, uses).held
    ensures var s := Exec(env, t, uses);
      var first := if id in s.values then Write(id, v) else Allocate(id, v);
      var r := Exec(env, t, uses + [first, Put(id), Get(id)]);
      && r.handedOut == s.handedOut + [ResetNamed(env, t, v)] && r.values == s.values[id := ResetNamed(env, t, v)]
      && r.held == s.held + {id} && r.pooled == s.pooled - {id}
      && r.put == s.put + [id] && r.got == s.got + [id] && r.evicted == s.evicted
  {
    var s := Exec(env, t, uses);
    var first := if id in s.values then Write(id, v) else Allocate(id, v);
    ExecInv(env, t, uses);
    Unfold3(env, t, uses, first, Put(id), Get(id));
    assert id in s.held ==> id in s.values;
    assert id !in s.pooled;
    hide *;
    ReuseFrom(env, t, s, id, v);
  }

  lemma ReuseFrom(env: Types, t: TypeExpr, s: State, id: nat, v: Value)
    requires HasType(env, t, v) && id !in s.pooled && (id !in s.values || id in s.held)
    ensures var first := if id in s.values then Write(id, v) else Allocate(id, v);
      var r := Step(env, t, Step(env, t, Step(env, t, s, first), Put(id)), Get(id));
      && r.handedOut == s.handedOut + [ResetNamed(env, t, v)] && r.values == s.values[id := ResetNamed(env, t, v)]
      && r.held == s.held + {id} && r.pooled == s.pooled - {id}
      && r.put == s.put + [id] && r.got == s.got + [id] && r.evicted == s.evicted
  {
    TakeUp(env, t, s, id, v);
    hide *;
    var first := if id in s.values then Write(id, v) else Allocate(id, v);
    PutGet(env, t, Step(env, t, s, first), id);
    assert s.pooled - {id} == s.pooled;
    assert s.values[id := v][id := ResetNamed(env, t, v)] == s.values[id := ResetNamed(env, t, v)];
  }

  lemma TakeUp(env: Types, t: TypeExpr, s: State, id: nat, v: Value)
    requires HasType(env, t, v) && (id !in s.values || id in s.held)
    ensures Step(env, t, s, if id in s.values then Write(id, v) else Allocate(id, v))
         == s.(values := s.values[id := v], held := s.held + {id})
  {
    hide HasType;
    assert id in s.held ==> s.held + {id} == s.held;
  }

  lemma PutGet(env: Types, t: TypeExpr, s: State, id: nat)
    requires id in s.held && id in s.values && id !in s.pooled
    ensures var r := ResetNamed(env, t, s.values[id]);
      Step(env, t, Step(env, t, s, Put(id)), Get(id))
      == s.(values := s.values[id := r], put := s.put + [id], got := s.got + [id], handedOut := s.handedOut + [r])
  {
    hide ResetNamed;
    assert s.held - {id} + {id} == s.held && s.pooled + {id} - {id} == s.pooled;
  }

  lemma Unfold3(env: Types, t: TypeExpr, uses: seq<Use>, a: Use, b: Use, c: Use)
    ensures Exec(env, t, uses + [a, b, c])
         == Step(env, t, Step(env, t, Step(env, t, Exec(env, t, uses), a), b), c)
  {
    hide Step;
    var n := |uses|;
    var all := uses + [a, b, c];
    assert all[..n + 2][..n + 1] == all[..n + 1] && all[..n + 1][..n] == uses;
    assert Exec(env, t, all[..n + 1]) == Step(env, t, Exec(env, t, uses), a);
    assert Exec(env, t, all[..n + 2]) == Step(env, t, Exec(env, t, all[..n + 1]), b);
  }
}
