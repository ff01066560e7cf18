/**
 * What evaluation by name computes where names are bound and used: `let`,
 * sets, selection and calls, as rules without fuel.
 */
module BindingLaws {
  import opened Basics
  import opened NixSyntax
  import opened FuelStability
  import opened NamedLaws
  import N = NamedEval

  // ---------- definitions ----------

  /** The definition of a name. */
  function FindDef(defs: Defs, name: Name): Option<Rhs> {
    match defs
    case NoDefs => None
    case Def(n, rhs, rest) => if n == name then Some(rhs) else FindDef(rest, name)
  }

  function RecFrame(defs: Defs, froms: Exprs, env: N.Env): N.Env { N.Scope(N.DefBinds(defs), froms, env) }

  /** A definition in the scope `inner` inside `outer`: plain ones see `inner`, inherited names `outer`. */
  function DefThunk(name: Name, rhs: Rhs, inner: N.Env, outer: N.Env, froms: Exprs): N.Thunk {
    match rhs
    case Plain(e) => N.Delay(inner, e)
    case Inherited(b) => N.Delay(outer, Var(name, b))
    case InheritedFrom(d) => N.SelectFrom(inner, froms, d, name)
  }

  lemma {:induction false} SlotOfDef(defs: Defs, name: Name)
    ensures N.FindSlot(N.DefBinds(defs), name)
            == match FindDef(defs, name)
               case None => None
               case Some(Plain(e)) => Some(N.Own(e))
               case Some(Inherited(b)) => Some(N.Outer(Var(name, b)))
               case Some(InheritedFrom(d)) => Some(N.From(d))
  {
    if defs.Def? { SlotOfDef(defs.rest, name); }
  }

  /** Inside a `let` or `rec`, a name it defines stands for its definition, other names for what they are outside. */
  lemma RecNames(defs: Defs, froms: Exprs, env: N.Env, name: Name)
    ensures var frame := RecFrame(defs, froms, env);
            N.LookupLexical(frame, name)
            == match FindDef(defs, name)
               case None => N.LookupLexical(env, name)
               case Some(rhs) => Some(DefThunk(name, rhs, frame, env, froms))
  {
    SlotOfDef(defs, name);
  }

  lemma LetRule(defs: Defs, froms: Exprs, body: Expr, env: N.Env, r: Res<N.Value>)
    ensures Means(Let(defs, froms, body), env, r) <==> Means(body, RecFrame(defs, froms, env), r)
  {
    SameMeaning(Let(defs, froms, body), env, body, RecFrame(defs, froms, env), 0, r);
  }

  /** `let x = e; … in x` means `e` inside the `let`; `let inherit x; … in x` means `x` outside. */
  lemma LetVarRule(defs: Defs, froms: Exprs, env: N.Env, name: Name, b: Binding, r: Res<N.Value>)
    ensures var def, inLet := FindDef(defs, name), Means(Let(defs, froms, Var(name, b)), env, r);
            && (def.None? ==> (inLet <==> Means(Var(name, b), env, r)))
            && (def.Some? && def.value.Plain? ==> (inLet <==> Means(def.value.e, RecFrame(defs, froms, env), r)))
            && (def.Some? && def.value.Inherited? ==> (inLet <==> Means(Var(name, def.value.bind), env, r)))
            && (def.Some? && def.value.InheritedFrom? ==>
                  (inLet <==> ForcesTo(N.SelectFrom(RecFrame(defs, froms, env), froms, def.value.displ, name), r)))
  {
    var frame := RecFrame(defs, froms, env);
    LetRule(defs, froms, Var(name, b), env, r);
    RecNames(defs, froms, env, name);
    match FindDef(defs, name)
    case None => SlotOfDef(defs, name); FrameMissedRule(name, b, N.DefBinds(defs), froms, env, r);
    case Some(rhs) =>
      var t := DefThunk(name, rhs, frame, env, froms);
      VarRule(name, b, frame, t, r);
      match rhs
      case Plain(e) => DelayRule(e, frame, r);
      case Inherited(outer) => DelayRule(Var(name, outer), env, r);
      case InheritedFrom(_) =>
  }

  /** `inherit (from) x` selects `x` from the source. */
  lemma FromRule(env: N.Env, froms: Exprs, d: nat, name: Name, from: Expr, a: N.AttrList, r: Res<N.Value>)
    requires Nth(froms, d) == Some(from) && Means(from, env, Ok(N.VAttrs(a)))
    ensures N.Get(a, name).Some? ==>
              (ForcesTo(N.SelectFrom(env, froms, d, name), r) <==> ForcesTo(N.Get(a, name).value, r))
    ensures N.Get(a, name).None? ==> ForcesTo(N.SelectFrom(env, froms, d, name), Err(MissingAttr(name)))
  {
    var s := N.SelectFrom(env, froms, d, name);
    var k := Enough(from, env, Ok(N.VAttrs(a)));
    if N.Get(a, name).None? {
      FromAt(k, env, froms, d, name, from, a);
    } else {
      var t := N.Get(a, name).value;
      if ForcesTo(s, r) {
        var m := EnoughForce(s, r);
        FromAt(k + m, env, froms, d, name, from, a);
        assert N.Force(k + m + 1, s) == r;
      }
      if ForcesTo(t, r) {
        var m := EnoughForce(t, r);
        FromAt(k + m, env, froms, d, name, from, a);
        assert N.Force(k + m, t) == r;
      }
    }
  }

  lemma FromAt(fuel: nat, env: N.Env, froms: Exprs, d: nat, name: Name, from: Expr, a: N.AttrList)
    requires Nth(froms, d) == Some(from) && N.Eval(fuel, from, env) == Ok(N.VAttrs(a))
    ensures N.Force(fuel + 1, N.SelectFrom(env, froms, d, name))
            == match N.Get(a, name)
               case None => Err(MissingAttr(name))
               case Some(t) => N.Force(fuel, t)
  {
    AttrsAt(fuel, from, env, a);
  }

  // ---------- sets ----------

  lemma {:induction false} GetRec(frame: N.Env, binds: N.Binds, name: Name)
    requires frame.Scope?
    ensures N.Get(N.RecAttrs(frame, binds), name)
            == match N.FindSlot(binds, name)
               case None => None
               case Some(slot) => Some(N.SlotThunk(frame, name, slot))
  {
    if binds.BCons? { GetRec(frame, binds.rest, name); }
  }

  lemma {:induction false} GetPlain(env: N.Env, defs: Defs, froms: Exprs, name: Name)
    ensures N.Get(N.PlainAttrs(env, defs, froms), name)
            == match FindDef(defs, name)
               case None => None
               case Some(rhs) => Some(DefThunk(name, rhs, env, env, froms))
  {
    if defs.Def? { GetPlain(env, defs.rest, froms, name); }
  }

  /** The set has exactly the defined names, each standing for its definition in the scope `inner`. */
  ghost predicate Defines(attrs: N.AttrList, defs: Defs, froms: Exprs, inner: N.Env, outer: N.Env) {
    forall name :: N.Get(attrs, name)
                   == match FindDef(defs, name)
                      case None => None
                      case Some(rhs) => Some(DefThunk(name, rhs, inner, outer, froms))
  }

  /**
   * A set has the names it defines, `rec` sets in their own scope, and then
   * those of its dynamic definitions.
   */
  lemma SetRule(recursive: bool, defs: Defs, froms: Exprs, dyn: DynAttrs, env: N.Env, r: Res<N.Value>)
    returns (attrs: N.AttrList)
    ensures var inner := if recursive then RecFrame(defs, froms, env) else env;
            && Defines(attrs, defs, froms, inner, env)
            && (Means(Attrs(recursive, defs, froms, dyn), env, r) <==> AddsTo(attrs, dyn, inner, r))
  {
    var inner := if recursive then RecFrame(defs, froms, env) else env;
    attrs := if recursive then N.RecAttrs(inner, N.DefBinds(defs)) else N.PlainAttrs(env, defs, froms);
    forall name ensures N.Get(attrs, name)
                        == match FindDef(defs, name)
                           case None => None
                           case Some(rhs) => Some(DefThunk(name, rhs, inner, env, froms))
    {
      if recursive {
        SlotOfDef(defs, name);
        GetRec(inner, N.DefBinds(defs), name);
      } else {
        GetPlain(env, defs, froms, name);
      }
    }
    var e := Attrs(recursive, defs, froms, dyn);
    if Means(e, env, r) {
      var m := Enough(e, env, r);
      SetAt(m, recursive, defs, froms, dyn, env, attrs, inner);
      assert N.Eval(m + 1, e, env) == r;
    }
    if AddsTo(attrs, dyn, inner, r) {
      var m := EnoughDynamic(attrs, dyn, inner, r);
      SetAt(m, recursive, defs, froms, dyn, env, attrs, inner);
      assert N.AddDynamic(m, attrs, dyn, inner) == r;
    }
  }

  lemma SetAt(fuel: nat, recursive: bool, defs: Defs, froms: Exprs, dyn: DynAttrs, env: N.Env,
              attrs: N.AttrList, inner: N.Env)
    requires inner == if recursive then RecFrame(defs, froms, env) else env
    requires attrs == if recursive then N.RecAttrs(inner, N.DefBinds(defs)) else N.PlainAttrs(env, defs, froms)
    ensures N.Eval(fuel + 1, Attrs(recursive, defs, froms, dyn), env) == N.AddDynamic(fuel, attrs, dyn, inner)
  {
    assert N.Eval(fuel + 1, Attrs(recursive, defs, froms, dyn), env)
        == N.EvalAttrSet(fuel, recursive, defs, froms, dyn, env);
  }

  /** Without dynamic definitions the set is complete. */
  lemma NoDynamicRule(attrs: N.AttrList, env: N.Env, r: Res<N.Value>)
    ensures AddsTo(attrs, NoDyn, env, r) <==> r == Ok(N.VAttrs(attrs))
  {
    assert N.AddDynamic(0, attrs, NoDyn, env) == Ok(N.VAttrs(attrs));
    if AddsTo(attrs, NoDyn, env, r) {
      var m := EnoughDynamic(attrs, NoDyn, env, r);
      assert N.AddDynamic(m, attrs, NoDyn, env) == r;
    }
  }

  /** A dynamic definition whose name is null is left out. */
  lemma DynamicNullRule(attrs: N.AttrList, ne: Expr, ve: Expr, rest: DynAttrs, env: N.Env, r: Res<N.Value>)
    requires Means(ne, env, Ok(N.VNull))
    ensures AddsTo(attrs, Dyn(ne, ve, rest), env, r) <==> AddsTo(attrs, rest, env, r)
  {
    var k := Enough(ne, env, Ok(N.VNull));
    if AddsTo(attrs, Dyn(ne, ve, rest), env, r) {
      var m := EnoughDynamic(attrs, Dyn(ne, ve, rest), env, r);
      NullAt(k + m, attrs, ne, ve, rest, env);
      assert N.AddDynamic(k + m, attrs, Dyn(ne, ve, rest), env) == r;
    }
    if AddsTo(attrs, rest, env, r) {
      var m := EnoughDynamic(attrs, rest, env, r);
      NullAt(k + m, attrs, ne, ve, rest, env);
      assert N.AddDynamic(k + m, attrs, rest, env) == r;
    }
  }

  lemma NullAt(fuel: nat, attrs: N.AttrList, ne: Expr, ve: Expr, rest: DynAttrs, env: N.Env)
    requires N.Eval(fuel, ne, env) == Ok(N.VNull)
    ensures N.AddDynamic(fuel, attrs, Dyn(ne, ve, rest), env) == N.AddDynamic(fuel, attrs, rest, env)
  {
  }

  lemma DuplicateAt(fuel: nat, attrs: N.AttrList, ne: Expr, ve: Expr, rest: DynAttrs, env: N.Env, s: string)
    requires N.Eval(fuel, ne, env) == Ok(N.VStr(s)) && N.Get(attrs, s).Some?
    ensures N.AddDynamic(fuel, attrs, Dyn(ne, ve, rest), env) == Err(DuplicateAttr(s))
  {
  }

  lemma NewNameAt(fuel: nat, attrs: N.AttrList, ne: Expr, ve: Expr, rest: DynAttrs, env: N.Env, s: string)
    requires N.Eval(fuel, ne, env) == Ok(N.VStr(s)) && N.Get(attrs, s).None?
    ensures N.AddDynamic(fuel, attrs, Dyn(ne, ve, rest), env)
            == N.AddDynamic(fuel, N.ACons(s, N.Delay(env, ve), attrs), rest, env)
  {
  }

  /** Otherwise it adds its name, which must be new, delayed in the scope of the set. */
  lemma DynamicNameRule(attrs: N.AttrList, ne: Expr, ve: Expr, rest: DynAttrs, env: N.Env, s: string, r: Res<N.Value>)
    returns (more: N.AttrList)
    requires Means(ne, env, Ok(N.VStr(s)))
    ensures N.Get(attrs, s).Some? ==> AddsTo(attrs, Dyn(ne, ve, rest), env, Err(DuplicateAttr(s)))
    ensures forall n :: N.Get(more, n) == if n == s then Some(N.Delay(env, ve)) else N.Get(attrs, n)
    ensures N.Get(attrs, s).None? ==> (AddsTo(attrs, Dyn(ne, ve, rest), env, r) <==> AddsTo(more, rest, env, r))
  {
    more := N.ACons(s, N.Delay(env, ve), attrs);
    var k := Enough(ne, env, Ok(N.VStr(s)));
    if N.Get(attrs, s).Some? {
      DuplicateAt(k, attrs, ne, ve, rest, env, s);
    } else {
      if AddsTo(attrs, Dyn(ne, ve, rest), env, r) {
        var m := EnoughDynamic(attrs, Dyn(ne, ve, rest), env, r);
        NewNameAt(k + m, attrs, ne, ve, rest, env, s);
        assert N.AddDynamic(k + m, attrs, Dyn(ne, ve, rest), env) == r;
      }
      if AddsTo(more, rest, env, r) {
        var m := EnoughDynamic(more, rest, env, r);
        NewNameAt(k + m, attrs, ne, ve, rest, env, s);
        assert N.AddDynamic(k + m, more, rest, env) == r;
      }
    }
  }

  // ---------- selection ----------

  lemma SelectRule(e: Expr, path: AttrPath, def: Option<Expr>, env: N.Env, v: N.Value, r: Res<N.Value>)
    requires Means(e, env, Ok(v))
    ensures Means(Select(e, path, def), env, r) <==> SelectsTo(N.Ready(v), path, def, env, r)
  {
    var k := Enough(e, env, Ok(v));
    if Means(Select(e, path, def), env, r) {
      var m := Enough(Select(e, path, def), env, r);
      SelectAt(k + m, e, path, def, env, v);
      assert N.Eval(k + m + 1, Select(e, path, def), env) == r;
    }
    if SelectsTo(N.Ready(v), path, def, env, r) {
      var m := EnoughSelect(N.Ready(v), path, def, env, r);
      SelectAt(k + m, e, path, def, env, v);
      assert N.SelectPath(k + m, N.Ready(v), path, def, env) == r;
    }
  }

  lemma SelectAt(fuel: nat, e: Expr, path: AttrPath, def: Option<Expr>, env: N.Env, v: N.Value)
    requires N.Eval(fuel, e, env) == Ok(v)
    ensures N.Eval(fuel + 1, Select(e, path, def), env) == N.SelectPath(fuel, N.Ready(v), path, def, env)
  {
    assert N.Eval(fuel + 1, Select(e, path, def), env) == N.EvalSelect(fuel, e, path, def, env);
  }

  /** At the end of the path the value is forced. */
  lemma SelectEndRule(t: N.Thunk, def: Option<Expr>, env: N.Env, r: Res<N.Value>)
    ensures SelectsTo(t, End, def, env, r) <==> ForcesTo(t, r)
  {
    if SelectsTo(t, End, def, env, r) {
      var m := EnoughSelect(t, End, def, env, r);
      assert N.SelectPath(m, t, End, def, env) == N.Force(m, t);
    }
    if ForcesTo(t, r) {
      var m := EnoughForce(t, r);
      assert N.SelectPath(m, t, End, def, env) == N.Force(m, t);
    }
  }

  lemma StepAt(fuel: nat, t: N.Thunk, name: Name, rest: AttrPath, def: Option<Expr>, env: N.Env, v: N.Value)
    requires N.Force(fuel, t) == Ok(v)
    ensures N.SelectPath(fuel, t, StaticName(name, rest), def, env)
            == if v.VAttrs? && N.Get(v.attrs, name).Some?
               then N.SelectPath(fuel, N.Get(v.attrs, name).value, rest, def, env)
               else if def.Some? then N.Eval(fuel, def.value, env)
               else Err(if v.VAttrs? then MissingAttr(name) else TypeError)
  {
    var path := StaticName(name, rest);
    var pick := N.Picked(N.NameOf(fuel, path, env), N.Force(fuel, t));
    assert N.SelectPath(fuel, t, path, def, env) == N.SelectRest(fuel, pick, path, def, env);
  }

  /** An attribute that is there is selected, whatever the default. */
  lemma SelectFoundRule(t: N.Thunk, name: Name, rest: AttrPath, def: Option<Expr>, env: N.Env, a: N.AttrList,
                        u: N.Thunk, r: Res<N.Value>)
    requires ForcesTo(t, Ok(N.VAttrs(a))) && N.Get(a, name) == Some(u)
    ensures SelectsTo(t, StaticName(name, rest), def, env, r) <==> SelectsTo(u, rest, def, env, r)
  {
    var k := EnoughForce(t, Ok(N.VAttrs(a)));
    if SelectsTo(t, StaticName(name, rest), def, env, r) {
      var m := EnoughSelect(t, StaticName(name, rest), def, env, r);
      StepAt(k + m, t, name, rest, def, env, N.VAttrs(a));
      assert N.SelectPath(k + m, t, StaticName(name, rest), def, env) == r;
    }
    if SelectsTo(u, rest, def, env, r) {
      var m := EnoughSelect(u, rest, def, env, r);
      StepAt(k + m, t, name, rest, def, env, N.VAttrs(a));
      assert N.SelectPath(k + m, u, rest, def, env) == r;
    }
  }

  /** The default is used exactly where the attribute is not there; without one that is an error. */
  lemma SelectAbsentRule(t: N.Thunk, name: Name, rest: AttrPath, def: Option<Expr>, env: N.Env, v: N.Value,
                         r: Res<N.Value>)
    requires ForcesTo(t, Ok(v)) && (v.VAttrs? ==> N.Get(v.attrs, name).None?)
    ensures def.Some? ==> (SelectsTo(t, StaticName(name, rest), def, env, r) <==> Means(def.value, env, r))
    ensures def.None? ==>
              SelectsTo(t, StaticName(name, rest), def, env, Err(if v.VAttrs? then MissingAttr(name) else TypeError))
  {
    var k := EnoughForce(t, Ok(v));
    if def.None? {
      StepAt(k, t, name, rest, def, env, v);
    } else {
      if SelectsTo(t, StaticName(name, rest), def, env, r) {
        var m := EnoughSelect(t, StaticName(name, rest), def, env, r);
        StepAt(k + m, t, name, rest, def, env, v);
        assert N.SelectPath(k + m, t, StaticName(name, rest), def, env) == r;
      }
      if Means(def.value, env, r) {
        var m := Enough(def.value, env, r);
        StepAt(k + m, t, name, rest, def, env, v);
        assert N.Eval(k + m, def.value, env) == r;
      }
    }
  }

  /** A computed name selects like the name it computes. */
  lemma SelectDynamicRule(t: N.Thunk, ne: Expr, rest: AttrPath, def: Option<Expr>, env: N.Env, s: string,
                          r: Res<N.Value>)
    requires Means(ne, env, Ok(N.VStr(s)))
    ensures SelectsTo(t, DynName(ne, rest), def, env, r) <==> SelectsTo(t, StaticName(s, rest), def, env, r)
  {
    var k := Enough(ne, env, Ok(N.VStr(s)));
    if SelectsTo(t, DynName(ne, rest), def, env, r) {
      var m := EnoughSelect(t, DynName(ne, rest), def, env, r);
      DynNameAt(k + m, t, ne, rest, def, env, s);
      assert N.SelectPath(k + m, t, DynName(ne, rest), def, env) == r;
    }
    if SelectsTo(t, StaticName(s, rest), def, env, r) {
      var m := EnoughSelect(t, StaticName(s, rest), def, env, r);
      DynNameAt(k + m, t, ne, rest, def, env, s);
      assert N.SelectPath(k + m, t, StaticName(s, rest), def, env) == r;
    }
  }

  lemma DynNameAt(fuel: nat, t: N.Thunk, ne: Expr, rest: AttrPath, def: Option<Expr>, env: N.Env, s: string)
    requires N.Eval(fuel, ne, env) == Ok(N.VStr(s))
    ensures N.SelectPath(fuel, t, DynName(ne, rest), def, env) == N.SelectPath(fuel, t, StaticName(s, rest), def, env)
  {
    var p, q := DynName(ne, rest), StaticName(s, rest);
    assert N.NameOf(fuel, p, env) == N.NameOf(fuel, q, env) == Ok(s);
    var pick := N.Picked(Ok(s), N.Force(fuel, t));
    assert N.SelectPath(fuel, t, p, def, env) == N.SelectRest(fuel, pick, p, def, env);
    assert N.SelectPath(fuel, t, q, def, env) == N.SelectRest(fuel, pick, q, def, env);
    RestAlike(fuel, pick, p, q, def, env);
  }

  lemma RestAlike(fuel: nat, pick: Res<N.Pick>, p: AttrPath, q: AttrPath, def: Option<Expr>, env: N.Env)
    requires !p.End? && !q.End? && p.rest == q.rest
    ensures N.SelectRest(fuel, pick, p, def, env) == N.SelectRest(fuel, pick, q, def, env)
  {
  }

  /** The `?` operator. */
  lemma HasRule(e: Expr, path: AttrPath, env: N.Env, v: N.Value, r: Res<N.Value>)
    requires Means(e, env, Ok(v))
    ensures Means(HasAttr(e, path), env, r) <==> HasTo(N.Ready(v), path, env, r)
  {
    var k := Enough(e, env, Ok(v));
    if Means(HasAttr(e, path), env, r) {
      var m := Enough(HasAttr(e, path), env, r);
      HasAt(k + m, e, path, env, v);
      assert N.Eval(k + m + 1, HasAttr(e, path), env) == r;
    }
    if HasTo(N.Ready(v), path, env, r) {
      var m := EnoughHas(N.Ready(v), path, env, r);
      HasAt(k + m, e, path, env, v);
      assert N.HasPath(k + m, N.Ready(v), path, env) == r;
    }
  }

  lemma HasAt(fuel: nat, e: Expr, path: AttrPath, env: N.Env, v: N.Value)
    requires N.Eval(fuel, e, env) == Ok(v)
    ensures N.Eval(fuel + 1, HasAttr(e, path), env) == N.HasPath(fuel, N.Ready(v), path, env)
  {
    assert N.Eval(fuel + 1, HasAttr(e, path), env) == N.EvalHasAttr(fuel, e, path, env);
  }

  /** It is true at the end of the path and false where an attribute is not there. */
  lemma HasNameRule(t: N.Thunk, name: Name, rest: AttrPath, env: N.Env, v: N.Value, r: Res<N.Value>)
    requires ForcesTo(t, Ok(v))
    ensures HasTo(t, End, env, Ok(N.VBool(true)))
    ensures v.VAttrs? && N.Get(v.attrs, name).Some? ==>
              (HasTo(t, StaticName(name, rest), env, r) <==> HasTo(N.Get(v.attrs, name).value, rest, env, r))
    ensures !v.VAttrs? || N.Get(v.attrs, name).None? ==> HasTo(t, StaticName(name, rest), env, Ok(N.VBool(false)))
  {
    assert N.HasPath(0, t, End, env) == Ok(N.VBool(true));
    var k := EnoughForce(t, Ok(v));
    if !v.VAttrs? || N.Get(v.attrs, name).None? {
      HasStepAt(k, t, name, rest, env, v);
    } else {
      var u := N.Get(v.attrs, name).value;
      if HasTo(t, StaticName(name, rest), env, r) {
        var m := EnoughHas(t, StaticName(name, rest), env, r);
        HasStepAt(k + m, t, name, rest, env, v);
        assert N.HasPath(k + m, t, StaticName(name, rest), env) == r;
      }
      if HasTo(u, rest, env, r) {
        var m := EnoughHas(u, rest, env, r);
        HasStepAt(k + m, t, name, rest, env, v);
        assert N.HasPath(k + m, u, rest, env) == r;
      }
    }
  }

  lemma HasStepAt(fuel: nat, t: N.Thunk, name: Name, rest: AttrPath, env: N.Env, v: N.Value)
    requires N.Force(fuel, t) == Ok(v)
    ensures N.HasPath(fuel, t, StaticName(name, rest), env)
            == if v.VAttrs? && N.Get(v.attrs, name).Some? then N.HasPath(fuel, N.Get(v.attrs, name).value, rest, env)
               else Ok(N.VBool(false))
  {
    var path := StaticName(name, rest);
    var pick := N.Picked(N.NameOf(fuel, path, env), Ok(v));
    assert N.HasPath(fuel, t, path, env) == N.HasRest(fuel, pick, path, env);
  }

  // ---------- errors ----------

  /** In a selection the name is computed before the set is forced. */
  lemma SelectNameError(t: N.Thunk, ne: Expr, rest: AttrPath, def: Option<Expr>, env: N.Env, err: Error)
    requires Means(ne, env, Err(err))
    ensures SelectsTo(t, DynName(ne, rest), def, env, Err(err))
  {
    var k := Enough(ne, env, Err(err));
    SelectNameErrorAt(k, t, ne, rest, def, env, err);
  }

  lemma SelectNameErrorAt(fuel: nat, t: N.Thunk, ne: Expr, rest: AttrPath, def: Option<Expr>, env: N.Env, err: Error)
    requires N.Eval(fuel, ne, env) == Err(err)
    ensures N.SelectPath(fuel, t, DynName(ne, rest), def, env) == Err(err)
  {
    var path := DynName(ne, rest);
    assert N.NameOf(fuel, path, env) == Err(err);
    var pick := N.Picked(N.NameOf(fuel, path, env), N.Force(fuel, t));
    assert pick == Err(err);
    assert N.SelectPath(fuel, t, path, def, env) == N.SelectRest(fuel, pick, path, def, env);
  }

  /** A default does not catch an error of forcing the set. */
  lemma SelectForceError(t: N.Thunk, name: Name, rest: AttrPath, def: Option<Expr>, env: N.Env, err: Error)
    requires ForcesTo(t, Err(err))
    ensures SelectsTo(t, StaticName(name, rest), def, env, Err(err))
  {
    var k := EnoughForce(t, Err(err));
    var path := StaticName(name, rest);
    assert N.Force(k, t) == Err(err);
    var pick := N.Picked(N.NameOf(k, path, env), N.Force(k, t));
    assert N.SelectPath(k, t, path, def, env) == N.SelectRest(k, pick, path, def, env) == Err(err);
  }

  /** With `?` the set is forced before the name is computed. */
  lemma HasForceError(t: N.Thunk, path: AttrPath, env: N.Env, err: Error)
    requires ForcesTo(t, Err(err)) && !path.End?
    ensures HasTo(t, path, env, Err(err))
  {
    var k := EnoughForce(t, Err(err));
    assert N.Force(k, t) == Err(err);
    assert N.HasPath(k, t, path, env) == Err(err);
  }
}
