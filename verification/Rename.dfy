/** The renaming of arguments to canonical names before generation, and its undoing afterwards. */
module Rename {
  import opened PyData

  /**
   * Expressions as far as names matter: literals, operators, calls, attributes and keyword labels are nodes whose
   * `op` holds everything that is not a variable. A binder is one of the node kinds that `restore` forbids.
   */
  datatype Expr = Var(name: string) | Node(op: string, children: seq<Expr>) | Binder(kind: string, children: seq<Expr>)

  datatype Statement = Return(value: Option<Expr>) | OtherStatement

  datatype Definition = Definition(name: string, params: seq<string>, plain: bool, body: seq<Statement>)

  /** A generated text: whether it starts with the requested header, and its top-level statements. */
  datatype Text = Unparsable | Parsed(headed: bool, statements: seq<TopLevel>)

  datatype TopLevel = Def(d: Definition) | OtherTop

  datatype Transform = Transform(name: string, canonical: seq<string>, original: seq<string>)

  datatype Outcome = InvalidSyntax | RejectedShape | RejectedCapture | Ok(d: Definition)

  // ----- Names -----

  /** `dict(zip(keys, values))` applied to a name, or the name itself. */
  function Renamed(keys: seq<string>, values: seq<string>, name: string): string
    requires |keys| == |values|
  {
    if keys == [] then name
    else if name == keys[|keys| - 1] then values[|keys| - 1]
    else Renamed(keys[..|keys| - 1], values[..|keys| - 1], name)
  }

  lemma {:induction false} RenamedKey(keys: seq<string>, values: seq<string>, i: nat)
    requires |keys| == |values| && i < |keys| && Distinct(keys)
    ensures Renamed(keys, values, keys[i]) == values[i]
  {
    if i < |keys| - 1 {
      RenamedKey(keys[..|keys| - 1], values[..|keys| - 1], i);
    }
  }

  lemma {:induction false} RenamedOther(keys: seq<string>, values: seq<string>, name: string)
    requires |keys| == |values| && name !in keys
    ensures Renamed(keys, values, name) == name
  {
    if keys != [] {
      RenamedOther(keys[..|keys| - 1], values[..|keys| - 1], name);
    }
  }

  predicate Mentions(e: Expr, name: string) {
    match e
    case Var(n) => n == name
    case Node(_, children) => exists i :: 0 <= i < |children| && Mentions(children[i], name)
    case Binder(_, children) => exists i :: 0 <= i < |children| && Mentions(children[i], name)
  }

  predicate HasBinder(e: Expr) {
    match e
    case Var(_) => false
    case Node(_, children) => exists i :: 0 <= i < |children| && HasBinder(children[i])
    case Binder(_, _) => true
  }

  function RenameExpr(e: Expr, keys: seq<string>, values: seq<string>): Expr
    requires |keys| == |values|
  {
    match e
    case Var(n) => Var(Renamed(keys, values, n))
    case Node(op, children) =>
      Node(op, seq(|children|, i requires 0 <= i < |children| => RenameExpr(children[i], keys, values)))
    case Binder(kind, children) =>
      Binder(kind, seq(|children|, i requires 0 <= i < |children| => RenameExpr(children[i], keys, values)))
  }

  // ----- `normalize` and `restore` -----

  const POLICIES := ["x", "values", "text"]

  /** The signature read from a prompt; its names are known to be distinct and plain. `None` stands for a ValueError. */
  function Normalize(name: string, names: seq<string>, policy: string, builtins: set<string>): (t: Option<Transform>)
    ensures t.Some? ==> |t.value.canonical| == |t.value.original| > 0
    ensures t.Some? && Distinct(names) ==> Distinct(t.value.canonical)
  {
    if policy !in POLICIES then None
    else if names == [] || (exists i :: 0 <= i < |names| && names[i] in builtins) || name in names then None
    else if |names| == 1 then Some(Transform(name, [policy], names))
    else if |names| == 2 then Some(Transform(name, ["a", "b"], names))
    else Some(Transform(name, names, names))
  }

  /** Some name of the body would be captured by a restored parameter. */
  predicate Captures(e: Expr, keys: seq<string>, values: seq<string>) {
    exists i :: 0 <= i < |values| && values[i] !in keys && Mentions(e, values[i])
  }

  lemma NotCaptured(name: string, keys: seq<string>, values: seq<string>)
    requires !Captures(Var(name), keys, values)
    ensures name in keys || name !in values
  {
    if name in values {
      var i :| 0 <= i < |values| && values[i] == name;
      assert Mentions(Var(name), values[i]);
    }
  }

  function Restore(text: Text, t: Transform): Outcome
    requires |t.canonical| == |t.original|
  {
    match text
    case Unparsable => InvalidSyntax
    case Parsed(headed, statements) =>
      if !headed || |statements| != 1 || !statements[0].Def? then RejectedShape else
        var d := statements[0].d;
        if !d.plain || d.name != t.name || d.params != t.canonical || |d.body| != 1 || !d.body[0].Return? then RejectedShape
        else match d.body[0].value
          case None => Ok(d.(params := t.original))
          case Some(e) =>
            if HasBinder(e) then RejectedShape
            else if Captures(e, t.canonical, t.original) then RejectedCapture
            else Ok(Definition(d.name, t.original, true, [Return(Some(RenameExpr(e, t.canonical, t.original)))]))
  }

  // ----- Meaning -----

  /** A compositional semantics: what the nodes, an absent value and the binders denote. */
  datatype Semantics<!D> = Semantics(node: (string, seq<D>) -> D, none: D, binder: Expr -> D)

  function Eval<D>(e: Expr, env: string -> D, sem: Semantics<D>): D {
    match e
    case Var(n) => env(n)
    case Node(op, children) =>
      sem.node(op, seq(|children|, i requires 0 <= i < |children| => Eval(children[i], env, sem)))
    case Binder(_, _) => sem.binder(e)
  }

  /** A parameter's argument, or the global of that name. */
  function Lookup<D>(params: seq<string>, args: seq<D>, globals: string -> D, name: string): D
    requires |params| == |args|
  {
    if params == [] then globals(name)
    else if params[0] == name then args[0]
    else Lookup(params[1..], args[1..], globals, name)
  }

  function Locals<D>(params: seq<string>, args: seq<D>, globals: string -> D): string -> D
    requires |params| == |args|
  {
    (name: string) => Lookup(params, args, globals, name)
  }

  /** The value of a call of a function whose body is one return statement. */
  function Call<D>(d: Definition, args: seq<D>, globals: string -> D, sem: Semantics<D>): D
    requires |args| == |d.params| && |d.body| == 1 && d.body[0].Return?
  {
    match d.body[0].value
    case None => sem.none
    case Some(e) => Eval(e, Locals(d.params, args, globals), sem)
  }

  lemma {:induction false} LookupParam<D>(params: seq<string>, args: seq<D>, globals: string -> D, i: nat)
    requires |params| == |args| && i < |params| && Distinct(params)
    ensures Lookup(params, args, globals, params[i]) == args[i]
  {
    if i > 0 {
      LookupParam(params[1..], args[1..], globals, i - 1);
    }
  }

  lemma {:induction false} LookupGlobal<D>(params: seq<string>, args: seq<D>, globals: string -> D, name: string)
    requires |params| == |args| && name !in params
    ensures Lookup(params, args, globals, name) == globals(name)
  {
    if params != [] {
      LookupGlobal(params[1..], args[1..], globals, name);
    }
  }

  /** A name that is not captured denotes the same value before and after renaming, swaps included. */
  lemma NameKeepsValue<D>(keys: seq<string>, values: seq<string>, args: seq<D>, globals: string -> D, name: string)
    requires |keys| == |values| == |args| && Distinct(keys) && Distinct(values)
    requires name in keys || name !in values
    ensures Lookup(keys, args, globals, name) == Lookup(values, args, globals, Renamed(keys, values, name))
  {
    if name in keys {
      var i :| 0 <= i < |keys| && keys[i] == name;
      RenamedKey(keys, values, i);
      LookupParam(keys, args, globals, i);
      LookupParam(values, args, globals, i);
    } else {
      RenamedOther(keys, values, name);
      LookupGlobal(keys, args, globals, name);
      LookupGlobal(values, args, globals, name);
    }
  }

  lemma {:induction false} RenameKeepsValue<D>(e: Expr, keys: seq<string>, values: seq<string>, args: seq<D>,
                                               globals: string -> D, sem: Semantics<D>)
    requires |keys| == |values| == |args| && Distinct(keys) && Distinct(values)
    requires !HasBinder(e) && !Captures(e, keys, values)
    ensures Eval(RenameExpr(e, keys, values), Locals(values, args, globals), sem) == Eval(e, Locals(keys, args, globals), sem)
  {
    match e
    case Var(n) =>
      NotCaptured(n, keys, values);
      NameKeepsValue(keys, values, args, globals, n);
    case Node(op, children) =>
      var r := RenameExpr(e, keys, values);
      forall i | 0 <= i < |children|
        ensures Eval(r.children[i], Locals(values, args, globals), sem) == Eval(children[i], Locals(keys, args, globals), sem)
      {
        assert !HasBinder(children[i]);
        forall j | 0 <= j < |values| && values[j] !in keys
          ensures !Mentions(children[i], values[j])
        {
          assert !Mentions(e, values[j]);
        }
        RenameKeepsValue(children[i], keys, values, args, globals, sem);
      }
      assert seq(|children|, i requires 0 <= i < |children| => Eval(r.children[i], Locals(values, args, globals), sem))
          == seq(|children|, i requires 0 <= i < |children| => Eval(children[i], Locals(keys, args, globals), sem));
  }

  /** An accepted restoration is a function of the original signature that computes what the generated one computes. */
  lemma RestoreKeepsMeaning<D>(text: Text, t: Transform, args: seq<D>, globals: string -> D, sem: Semantics<D>)
    requires |t.canonical| == |t.original| == |args| && Distinct(t.canonical) && Distinct(t.original)
    requires Restore(text, t).Ok?
    ensures var generated := text.statements[0].d;
            var restored := Restore(text, t).d;
            && restored.name == t.name == generated.name && restored.params == t.original
            && Call(restored, args, globals, sem) == Call(generated, args, globals, sem)
  {
    var generated := text.statements[0].d;
    if generated.body[0].value.Some? {
      RenameKeepsValue(generated.body[0].value.value, t.canonical, t.original, args, globals, sem);
    }
  }

  // ----- Recursive functions -----

  /** A function value depends only on what the function returns. */
  ghost predicate Extensional<D(!new)>(close: (seq<D> -> D) -> D) {
    forall f: seq<D> -> D, g: seq<D> -> D :: (forall args: seq<D> :: f(args) == g(args)) ==> close(f) == close(g)
  }

  function Including<D>(globals: string -> D, name: string, value: D): string -> D {
    (n: string) => if n == name then value else globals(n)
  }

  /** What a call returns, or `none` for a wrong number of arguments. */
  function Apply<D>(d: Definition, args: seq<D>, globals: string -> D, sem: Semantics<D>): D
    requires |d.body| == 1 && d.body[0].Return?
  {
    if |args| == |d.params| then Call(d, args, globals, sem) else sem.none
  }

  /** The value of the function's own name, for recursion up to `depth`. */
  function Unrolled<D>(d: Definition, depth: nat, close: (seq<D> -> D) -> D, globals: string -> D, sem: Semantics<D>): D
    requires |d.body| == 1 && d.body[0].Return?
  {
    if depth == 0 then sem.none else
      var self := Unrolled(d, depth - 1, close, globals, sem);
      close((args: seq<D>) => Apply(d, args, Including(globals, d.name, self), sem))
  }

  /** In every scope the restored function and the generated one return the same. */
  lemma RestoredApplies<D(!new)>(text: Text, t: Transform, scope: string -> D, sem: Semantics<D>)
    requires |t.canonical| == |t.original| && Distinct(t.canonical) && Distinct(t.original)
    requires Restore(text, t).Ok?
    ensures forall args: seq<D> :: Apply(Restore(text, t).d, args, scope, sem) == Apply(text.statements[0].d, args, scope, sem)
  {
    forall args: seq<D>
      ensures Apply(Restore(text, t).d, args, scope, sem) == Apply(text.statements[0].d, args, scope, sem)
    {
      if |args| == |t.canonical| {
        RestoreKeepsMeaning(text, t, args, scope, sem);
      }
    }
  }

  /** Functions that return the same have the same value. */
  lemma SameValue<D(!new)>(f: seq<D> -> D, g: seq<D> -> D, close: (seq<D> -> D) -> D)
    requires Extensional(close) && forall args: seq<D> :: f(args) == g(args)
    ensures close(f) == close(g)
  {
  }

  /** Restoration keeps the meaning of functions that call themselves. */
  lemma {:induction false} RestoreKeepsRecursion<D(!new)>(text: Text, t: Transform, depth: nat, close: (seq<D> -> D) -> D,
                                                          globals: string -> D, sem: Semantics<D>)
    requires |t.canonical| == |t.original| && Distinct(t.canonical) && Distinct(t.original)
    requires Restore(text, t).Ok? && Extensional(close)
    ensures Unrolled(Restore(text, t).d, depth, close, globals, sem) == Unrolled(text.statements[0].d, depth, close, globals, sem)
  {
    var generated := text.statements[0].d;
    var restored := Restore(text, t).d;
    if depth > 0 {
      RestoreKeepsRecursion(text, t, depth - 1, close, globals, sem);
      var scope := Including(globals, t.name, Unrolled(generated, depth - 1, close, globals, sem));
      RestoredApplies(text, t, scope, sem);
      SameValue((args: seq<D>) => Apply(restored, args, scope, sem), (args: seq<D>) => Apply(generated, args, scope, sem), close);
    }
  }

  // ----- The capture test is exact -----

  /** The semantics in which every expression denotes itself. */
  function Terms(): Semantics<Expr> {
    Semantics((op: string, children: seq<Expr>) => Node(op, children), Node("none", []), (e: Expr) => e)
  }

  /** Where terms are equal, so are the values of corresponding names. */
  lemma {:induction false} TermsShowNames(e: Expr, keys: seq<string>, values: seq<string>, env: string -> Expr,
                                          after: string -> Expr, name: string)
    requires |keys| == |values| && !HasBinder(e) && Mentions(e, name)
    requires Eval(RenameExpr(e, keys, values), after, Terms()) == Eval(e, env, Terms())
    ensures after(Renamed(keys, values, name)) == env(name)
  {
    match e
    case Var(n) =>
    case Node(op, children) =>
      var i :| 0 <= i < |children| && Mentions(children[i], name);
      var r := RenameExpr(e, keys, values);
      assert Eval(r, after, Terms()).children[i] == Eval(r.children[i], after, Terms());
      assert Eval(e, env, Terms()).children[i] == Eval(children[i], env, Terms());
      assert !HasBinder(children[i]);
      TermsShowNames(children[i], keys, values, env, after, name);
  }

  /** Renaming without the test changes the meaning of every body that the test rejects. */
  lemma CaptureChangesMeaning(e: Expr, keys: seq<string>, values: seq<string>) returns (args: seq<Expr>, globals: string -> Expr)
    requires |keys| == |values| && Distinct(keys) && Distinct(values)
    requires !HasBinder(e) && Captures(e, keys, values)
    ensures |args| == |keys|
    ensures Eval(RenameExpr(e, keys, values), Locals(values, args, globals), Terms())
         != Eval(e, Locals(keys, args, globals), Terms())
  {
    args := seq(|keys|, i => Node("argument", []));
    globals := (name: string) => Var(name);
    var i :| 0 <= i < |values| && values[i] !in keys && Mentions(e, values[i]);
    RenamedOther(keys, values, values[i]);
    LookupGlobal(keys, args, globals, values[i]);
    LookupParam(values, args, globals, i);
    if Eval(RenameExpr(e, keys, values), Locals(values, args, globals), Terms()) == Eval(e, Locals(keys, args, globals), Terms()) {
      TermsShowNames(e, keys, values, Locals(keys, args, globals), Locals(values, args, globals), values[i]);
      assert false;
    }
  }

  /** The test rejects a body exactly when renaming it would change its meaning. */
  lemma CaptureTestIsExact(e: Expr, keys: seq<string>, values: seq<string>)
    requires |keys| == |values| && Distinct(keys) && Distinct(values) && !HasBinder(e)
    ensures !Captures(e, keys, values) <==>
            forall args: seq<Expr>, globals: string -> Expr :: |args| == |keys| ==>
              Eval(RenameExpr(e, keys, values), Locals(values, args, globals), Terms())
              == Eval(e, Locals(keys, args, globals), Terms())
  {
    if Captures(e, keys, values) {
      var args, globals := CaptureChangesMeaning(e, keys, values);
    } else {
      forall args: seq<Expr>, globals: string -> Expr | |args| == |keys|
        ensures Eval(RenameExpr(e, keys, values), Locals(values, args, globals), Terms())
             == Eval(e, Locals(keys, args, globals), Terms())
      {
        RenameKeepsValue(e, keys, values, args, globals, Terms());
      }
    }
  }

  // ----- Restoration undoes normalization -----

  lemma RenamedBack(keys: seq<string>, values: seq<string>, name: string)
    requires |keys| == |values| && Distinct(keys) && Distinct(values)
    requires name in keys || name !in values
    ensures Renamed(values, keys, Renamed(keys, values, name)) == name
    ensures Renamed(keys, values, name) in values || Renamed(keys, values, name) !in keys
  {
    if name in keys {
      var i :| 0 <= i < |keys| && keys[i] == name;
      RenamedKey(keys, values, i);
      RenamedKey(values, keys, i);
    } else {
      RenamedOther(keys, values, name);
      RenamedOther(values, keys, name);
    }
  }

  lemma {:induction false} RenameBack(e: Expr, keys: seq<string>, values: seq<string>)
    requires |keys| == |values| && Distinct(keys) && Distinct(values)
    requires !HasBinder(e) && !Captures(e, keys, values)
    ensures var r := RenameExpr(e, keys, values);
            !HasBinder(r) && !Captures(r, values, keys) && RenameExpr(r, values, keys) == e
  {
    var r := RenameExpr(e, keys, values);
    match e
    case Var(n) =>
      NotCaptured(n, keys, values);
      RenamedBack(keys, values, n);
    case Node(op, children) =>
      forall i | 0 <= i < |children|
        ensures !HasBinder(r.children[i]) && !Captures(r.children[i], values, keys)
        ensures RenameExpr(r.children[i], values, keys) == children[i]
      {
        assert !HasBinder(children[i]);
        forall j | 0 <= j < |values| && values[j] !in keys
          ensures !Mentions(children[i], values[j])
        {
          assert !Mentions(e, values[j]);
        }
        RenameBack(children[i], keys, values);
      }
      assert RenameExpr(r, values, keys).children == children;
  }

  /** The canonical form of a function over the original names. */
  function Canonical(t: Transform, e: Expr): Text
    requires |t.canonical| == |t.original|
  {
    Parsed(true, [Def(Definition(t.name, t.canonical, true, [Return(Some(RenameExpr(e, t.original, t.canonical)))]))])
  }

  /** Every function body over the original names that leaves the canonical names alone is restored from its canonical form. */
  lemma RestoreUndoesCanonical(t: Transform, e: Expr)
    requires |t.canonical| == |t.original| && Distinct(t.canonical) && Distinct(t.original)
    requires !HasBinder(e) && !Captures(e, t.original, t.canonical)
    ensures Restore(Canonical(t, e), t) == Ok(Definition(t.name, t.original, true, [Return(Some(e))]))
  {
    RenameBack(e, t.original, t.canonical);
  }

  lemma NameTwice(a: seq<string>, b: seq<string>, c: seq<string>, name: string)
    requires |a| == |b| == |c| && Distinct(a) && Distinct(b) && (name in a || name !in b)
    ensures Renamed(b, c, Renamed(a, b, name)) == Renamed(a, c, name)
  {
    if name in a {
      var i :| 0 <= i < |a| && a[i] == name;
      RenamedKey(a, b, i);
      RenamedKey(a, c, i);
      RenamedKey(b, c, i);
    } else {
      RenamedOther(a, b, name);
      RenamedOther(a, c, name);
      RenamedOther(b, c, name);
    }
  }

  /** Renaming in two steps is renaming in one, where the first step captures nothing. */
  lemma {:induction false} RenameTwice(e: Expr, a: seq<string>, b: seq<string>, c: seq<string>)
    requires |a| == |b| == |c| && Distinct(a) && Distinct(b) && !HasBinder(e) && !Captures(e, a, b)
    ensures RenameExpr(RenameExpr(e, a, b), b, c) == RenameExpr(e, a, c)
  {
    match e
    case Var(n) =>
      NotCaptured(n, a, b);
      NameTwice(a, b, c, n);
    case Node(op, children) =>
      var r := RenameExpr(e, a, b);
      forall i | 0 <= i < |children|
        ensures RenameExpr(r.children[i], b, c) == RenameExpr(children[i], a, c)
      {
        assert !HasBinder(children[i]);
        forall j | 0 <= j < |b| && b[j] !in a
          ensures !Mentions(children[i], b[j])
        {
          assert !Mentions(e, b[j]);
        }
        RenameTwice(children[i], a, b, c);
      }
      assert RenameExpr(r, b, c).children == RenameExpr(e, a, c).children;
  }

  /** Functions of one or two parameters that differ only in what these are called have the same canonical form. */
  lemma CanonicalForgetsNames(name: string, names: seq<string>, others: seq<string>, policy: string, builtins: set<string>, e: Expr)
    requires |names| == |others| <= 2 && Distinct(names) && Distinct(others)
    requires Normalize(name, names, policy, builtins).Some? && Normalize(name, others, policy, builtins).Some?
    requires !HasBinder(e) && !Captures(e, names, others)
    ensures var t, u := Normalize(name, names, policy, builtins).value, Normalize(name, others, policy, builtins).value;
            Canonical(t, e) == Canonical(u, RenameExpr(e, names, others))
  {
    RenameTwice(e, names, others, Normalize(name, names, policy, builtins).value.canonical);
  }

  /** With three or more parameters, and with names already canonical, restoration changes nothing. */
  lemma {:induction false} SameNamesRename(e: Expr, names: seq<string>)
    requires Distinct(names)
    ensures RenameExpr(e, names, names) == e && !Captures(e, names, names)
  {
    match e
    case Var(n) =>
      if n in names {
        var i :| 0 <= i < |names| && names[i] == n;
        RenamedKey(names, names, i);
      } else {
        RenamedOther(names, names, n);
      }
    case Node(op, children) =>
      forall i | 0 <= i < |children|
        ensures RenameExpr(children[i], names, names) == children[i]
      {
        SameNamesRename(children[i], names);
      }
      assert RenameExpr(e, names, names).children == children;
    case Binder(kind, children) =>
      forall i | 0 <= i < |children|
        ensures RenameExpr(children[i], names, names) == children[i]
      {
        SameNamesRename(children[i], names);
      }
      assert RenameExpr(e, names, names).children == children;
  }

  lemma LongSignaturesPassThrough(name: string, names: seq<string>, policy: string, builtins: set<string>, text: Text)
    requires Distinct(names) && |names| > 2 && Normalize(name, names, policy, builtins).Some?
    requires Restore(text, Normalize(name, names, policy, builtins).value).Ok?
    ensures Restore(text, Normalize(name, names, policy, builtins).value).d == text.statements[0].d
  {
    var t := Normalize(name, names, policy, builtins).value;
    var d := text.statements[0].d;
    if d.body[0].value.Some? {
      SameNamesRename(d.body[0].value.value, names);
    }
    assert d.body == [d.body[0]];
  }

  // ----- Which texts are rejected, and how -----

  /** One plain definition under the requested header, whose body is one return of something without binders. */
  predicate WellShaped(text: Text, t: Transform) {
    && text.Parsed? && text.headed && |text.statements| == 1 && text.statements[0].Def?
    && var d := text.statements[0].d;
       && d.plain && d.name == t.name && d.params == t.canonical && |d.body| == 1 && d.body[0].Return?
       && (d.body[0].value.Some? ==> !HasBinder(d.body[0].value.value))
  }

  /** Each outcome has its own cause: syntax first, then shape, then capture. */
  lemma OutcomeIsItsCause(text: Text, t: Transform)
    requires |t.canonical| == |t.original|
    ensures Restore(text, t) == InvalidSyntax <==> text == Unparsable
    ensures Restore(text, t) == RejectedShape <==> text != Unparsable && !WellShaped(text, t)
    ensures Restore(text, t) == RejectedCapture <==>
              && WellShaped(text, t) && text.statements[0].d.body[0].value.Some?
              && exists i :: 0 <= i < |t.original| && t.original[i] !in t.canonical &&
                             Mentions(text.statements[0].d.body[0].value.value, t.original[i])
    ensures Restore(text, t).Ok? ==> WellShaped(text, t)
  {
  }

  // ----- Which signatures are accepted, and what their parameters become -----

  /** A signature is accepted exactly when it has parameters and none is named like a builtin or like the function. */
  lemma SignatureIff(name: string, names: seq<string>, policy: string, builtins: set<string>)
    requires policy == "x" || policy == "values" || policy == "text"
    ensures Normalize(name, names, policy, builtins).Some? <==> names != [] && (set n | n in names) !! builtins + {name}
  {
    if i :| 0 <= i < |names| && names[i] in builtins {
      assert names[i] in (set n | n in names);
    }
  }

  lemma UnknownPolicy(name: string, names: seq<string>, policy: string, builtins: set<string>)
    requires policy != "x" && policy != "values" && policy != "text"
    ensures Normalize(name, names, policy, builtins).None?
  {
  }

  /** A single parameter takes the policy's name, two become `a` and `b`, and more keep their own names. */
  lemma ParameterBecomes(name: string, names: seq<string>, policy: string, builtins: set<string>, i: nat)
    requires Normalize(name, names, policy, builtins).Some? && Distinct(names) && i < |names|
    ensures var t := Normalize(name, names, policy, builtins).value;
            && t.name == name && t.original == names
            && Renamed(t.original, t.canonical, names[i])
               == if |names| == 1 then policy else if |names| == 2 then ["a", "b"][i] else names[i]
  {
    RenamedKey(names, Normalize(name, names, policy, builtins).value.canonical, i);
  }

  /** Signatures share their canonical names exactly when they have the same one or two parameters in number, or are the same. */
  lemma SharedCanonicalIff(name: string, names: seq<string>, others: seq<string>, policy: string, builtins: set<string>)
    requires Normalize(name, names, policy, builtins).Some? && Normalize(name, others, policy, builtins).Some?
    ensures Normalize(name, names, policy, builtins).value.canonical == Normalize(name, others, policy, builtins).value.canonical
            <==> |names| == |others| <= 2 || names == others
  {
  }
}
