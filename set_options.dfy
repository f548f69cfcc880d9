/**
 * `Sass::Tree::Visitors::SetOptions` (lib/sass/tree/visitors/set_options.rb):
 * a pass that hands one options hash to every node of a tree and to every
 * script expression the nodes embed.
 *
 * The visitor's base class (not part of this model) dispatches a node to the
 * handler of its kind, passing a block that visits the node's children in
 * order; a kind without a handler just visits its children. Here that
 * dispatch is a `match` on the node's kind, and each `set_options` call is
 * recorded, in order, in the visitor's `log` by the identity of the object
 * that received the options.
 */
module SetOptions {
  import opened Wrappers
  import opened SassTree

  // ---------------------------------------------------------------------
  // The expressions each handler hands the options to, in its order

  /** The identities of `es`, in order. */
  function Ids(es: seq<Expr>): (r: seq<ObjId>)
    ensures |r| == |es|
    ensures forall i :: 0 <= i < |es| ==> r[i] == es[i].id
  {
    if es == [] then [] else Ids(es[..|es| - 1]) + [es[|es| - 1].id]
  }

  lemma IdsAppend(a: seq<Expr>, b: seq<Expr>)
    ensures Ids(a + b) == Ids(a) + Ids(b)
  {
    assert |Ids(a + b)| == |Ids(a) + Ids(b)|;
    forall i | 0 <= i < |a + b|
      ensures Ids(a + b)[i] == (Ids(a) + Ids(b))[i]
    {
    }
  }

  /** `x in Ids(es)` exactly when some expression of `es` has identity `x`. */
  lemma IdsMembership(es: seq<Expr>, x: ObjId)
    ensures x in Ids(es) <==> exists e :: e in es && e.id == x
  {
    if x in Ids(es) {
      var i :| 0 <= i < |es| && Ids(es)[i] == x;
      assert es[i] in es;
    }
    if exists e :: e in es && e.id == x {
      var e :| e in es && e.id == x;
      var i :| 0 <= i < |es| && es[i] == e;
      assert Ids(es)[i] == x;
    }
  }

  /** The script fragments of a selector or name, in order; plain strings are skipped. */
  function ScriptExprs(fs: seq<Fragment>): (r: seq<Expr>)
  {
    if fs == [] then []
    else
      var init := fs[..|fs| - 1];
      assert fs == init + [fs[|fs| - 1]];
      match fs[|fs| - 1]
      case Text(_) => ScriptExprs(init)
      case Script(e) => ScriptExprs(init) + [e]
  }
  /** The script fragments' expressions are exactly the expressions of the `Script` fragments. */
  lemma {:induction false} ScriptExprsMembers(fs: seq<Fragment>, e: Expr)
    ensures e in ScriptExprs(fs) <==> Script(e) in fs
  {
    if fs != [] {
      var init := fs[..|fs| - 1];
      assert fs == init + [fs[|fs| - 1]];
      ScriptExprsMembers(init, e);
    }
  }

  /** Extending the fragments by one adds that fragment's expression, if it has one. */
  lemma ScriptExprsStep(fs: seq<Fragment>, i: nat)
    requires i < |fs|
    ensures Ids(ScriptExprs(fs[..i + 1])) == Ids(ScriptExprs(fs[..i])) + (if fs[i].Script? then [fs[i].expr.id] else [])
  {
    assert fs[..i + 1][..i] == fs[..i];
    if fs[i].Script? {
      IdsAppend(ScriptExprs(fs[..i]), [fs[i].expr]);
    }
  }


  /** Every argument variable, each followed by its default value when it has one. */
  function ArgExprs(args: seq<Arg>): (r: seq<Expr>)
    ensures forall e :: e in r <==> exists a :: a in args && (a.name == e || a.defaultValue == Some(e))
  {
    if args == [] then []
    else
      var init := args[..|args| - 1];
      var a := args[|args| - 1];
      assert args == init + [a];
      ArgExprs(init) + ArgPair(a)
  }

  lemma ArgExprsStep(args: seq<Arg>, i: nat)
    requires i < |args|
    ensures ArgExprs(args[..i + 1]) == ArgExprs(args[..i]) + ArgPair(args[i])
  {
    assert args[..i + 1][..i] == args[..i];
  }

  /** An argument's variable, followed by its default value when it has one. */
  function ArgPair(a: Arg): seq<Expr>
  {
    [a.name] + (match a.defaultValue case None => [] case Some(v) => [v])
  }

  /** The values of the keyword arguments, in order; the keywords themselves are strings. */
  function KeywordValues(kws: seq<Keyword>): (r: seq<Expr>)
    ensures forall e :: e in r <==> exists kw :: kw in kws && kw.value == e
  {
    if kws == [] then []
    else
      var init := kws[..|kws| - 1];
      assert kws == init + [kws[|kws| - 1]];
      KeywordValues(init) + [kws[|kws| - 1].value]
  }

  /** The expressions the handler of kind `k` hands the options to, in order. */
  function HandlerExprs(k: Kind): seq<Expr>
  {
    match k
    case Debug(e) => [e]
    case Each(l) => [l]
    case Extend(sel) => ScriptExprs(sel)
    case For(f, t) => [f, t]
    case Function(args) => ArgExprs(args)
    case If(c, _) => (match c case None => [] case Some(e) => [e])
    case MixinDef(args) => ArgExprs(args)
    case Mixin(pos, kws) => pos + KeywordValues(kws)
    case Prop(name, v) => ScriptExprs(name) + [v]
    case Return(e) => [e]
    case Rule(r) => ScriptExprs(r)
    case Variable(e) => [e]
    case Warn(e) => [e]
    case While(e) => [e]
    case Other => []
  }

  // ---------------------------------------------------------------------
  // The order of the set_options calls

  /** The objects that receive the options when `n` is visited, in the order they receive them. */
  function Trace(n: Node): seq<ObjId>
    decreases n, 2
  {
    [n.id] + HandlerTrace(n) + ChildrenTrace(n, |n.children|)
  }

  /** What the handler of `n` adds before it yields: its expressions, then, for an if node, its `@else`. */
  function HandlerTrace(n: Node): seq<ObjId>
    decreases n, 1
  {
    Ids(HandlerExprs(n.kind)) +
    match n.kind
    case If(_, els) => (match els case None => [] case Some(e) => Trace(e))
    case _ => []
  }

  /** The visits of the first `k` children of `n`, in order. */
  function ChildrenTrace(n: Node, k: nat): seq<ObjId>
    requires k <= |n.children|
    decreases n, 0, k
  {
    if k == 0 then [] else ChildrenTrace(n, k - 1) + Trace(n.children[k - 1])
  }

  // ---------------------------------------------------------------------
  // An independent account of which objects must receive the options

  /** `m` is `n`, or is reached from `n` through children and `@else` links. */
  predicate Reaches(n: Node, m: Node)
    decreases n
  {
    m == n ||
    (n.kind.If? && n.kind.elseNode.Some? && Reaches(n.kind.elseNode.value, m)) ||
    exists i :: 0 <= i < |n.children| && Reaches(n.children[i], m)
  }

  /** `e` is an expression that the handler of kind `k` is meant to hand the options to. */
  predicate Listed(k: Kind, e: Expr)
  {
    match k
    case Debug(x) => e == x
    case Each(l) => e == l
    case Extend(sel) => Script(e) in sel
    case For(f, t) => e == f || e == t
    case Function(args) => exists a :: a in args && (a.name == e || a.defaultValue == Some(e))
    case If(c, _) => c == Some(e)
    case MixinDef(args) => exists a :: a in args && (a.name == e || a.defaultValue == Some(e))
    case Mixin(pos, kws) => e in pos || exists kw :: kw in kws && kw.value == e
    case Prop(name, v) => Script(e) in name || e == v
    case Return(x) => e == x
    case Rule(r) => Script(e) in r
    case Variable(x) => e == x
    case Warn(x) => e == x
    case While(x) => e == x
    case Other => false
  }

  /** `x` is the identity of `m` or of an expression listed in `m`. */
  ghost predicate Owns(m: Node, x: ObjId)
  {
    m.id == x || exists e :: Listed(m.kind, e) && e.id == x
  }

  /** The handlers hand the options to the listed expressions and to no other. */
  lemma HandlerExprsAreListed(k: Kind, e: Expr)
    ensures e in HandlerExprs(k) <==> Listed(k, e)
  {
    match k
    case Extend(sel) => ScriptExprsMembers(sel, e);
    case Prop(name, _) => ScriptExprsMembers(name, e);
    case Rule(r) => ScriptExprsMembers(r, e);
    case _ =>
  }

  /** Every object of `Trace(n.children[i])` is in the visit of the first `k > i` children. */
  lemma {:induction false} ChildTraceIncluded(n: Node, k: nat, i: nat, x: ObjId)
    requires i < k <= |n.children|
    requires x in Trace(n.children[i])
    ensures x in ChildrenTrace(n, k)
  {
    if i < k - 1 {
      ChildTraceIncluded(n, k - 1, i, x);
    }
  }

  /** Every object visited among the first `k` children is in the visit of one of them. */
  lemma {:induction false} ChildrenTraceSplit(n: Node, k: nat, x: ObjId) returns (i: nat)
    requires k <= |n.children|
    requires x in ChildrenTrace(n, k)
    ensures i < k && x in Trace(n.children[i])
  {
    if x in Trace(n.children[k - 1]) {
      i := k - 1;
    } else {
      i := ChildrenTraceSplit(n, k - 1, x);
    }
  }

  /**
   * Every node reachable from the root, through children and through `@else`
   * links, receives the options, and so does every expression listed in it.
   */
  lemma {:induction false} ReachableObjectsReceiveOptions(n: Node, m: Node, x: ObjId)
    requires Reaches(n, m) && Owns(m, x)
    ensures x in Trace(n)
    decreases n
  {
    if m == n {
      if x != n.id {
        var e :| Listed(n.kind, e) && e.id == x;
        HandlerExprsAreListed(n.kind, e);
        IdsMembership(HandlerExprs(n.kind), x);
        assert x in HandlerTrace(n);
      }
    } else if n.kind.If? && n.kind.elseNode.Some? && Reaches(n.kind.elseNode.value, m) {
      ReachableObjectsReceiveOptions(n.kind.elseNode.value, m, x);
      assert x in HandlerTrace(n);
    } else {
      var i :| 0 <= i < |n.children| && Reaches(n.children[i], m);
      ReachableObjectsReceiveOptions(n.children[i], m, x);
      ChildTraceIncluded(n, |n.children|, i, x);
    }
  }

  /**
   * Only those objects receive the options: each one is a reachable node or an
   * expression listed in a reachable node (a keyword or a plain-text fragment never is).
   */
  lemma {:induction false} OnlyReachableObjectsReceiveOptions(n: Node, x: ObjId) returns (m: Node)
    requires x in Trace(n)
    ensures Reaches(n, m) && Owns(m, x)
    decreases n
  {
    var exprIds := Ids(HandlerExprs(n.kind));
    if x == n.id {
      m := n;
    } else if x in exprIds {
      IdsMembership(HandlerExprs(n.kind), x);
      var e :| e in HandlerExprs(n.kind) && e.id == x;
      HandlerExprsAreListed(n.kind, e);
      m := n;
    } else if x in HandlerTrace(n) {
      var els := n.kind.elseNode.value;
      assert x in Trace(els);
      m := OnlyReachableObjectsReceiveOptions(els, x);
    } else {
      var i := ChildrenTraceSplit(n, |n.children|, x);
      m := OnlyReachableObjectsReceiveOptions(n.children[i], x);
      assert Reaches(n.children[i], m);
    }
  }

  /** A node receives the options before anything below it. */
  lemma NodeReceivesOptionsFirst(n: Node)
    ensures Trace(n) != [] && Trace(n)[0] == n.id
  {
  }

  /** `ChildrenTrace(n, k)` is a prefix of `ChildrenTrace(n, j)` for `k <= j`. */
  lemma {:induction false} ChildrenTracePrefix(n: Node, k: nat, j: nat)
    requires k <= j <= |n.children|
    ensures ChildrenTrace(n, k) <= ChildrenTrace(n, j)
    decreases j
  {
    if k < j {
      ChildrenTracePrefix(n, k, j - 1);
    }
  }

  /** Where the visit of child `k` starts in the visit of `n`: after `n`, its handler, and the earlier children. */
  function ChildStart(n: Node, k: nat): nat
    requires k <= |n.children|
  {
    1 + |HandlerTrace(n)| + |ChildrenTrace(n, k)|
  }

  /**
   * The children are visited, each exactly once, in order, as one unbroken
   * visit after the node itself and after its handler's work.
   */
  lemma ChildVisitFollowsParent(n: Node, k: nat)
    requires k < |n.children|
    ensures 1 <= ChildStart(n, k) && ChildStart(n, k) + |Trace(n.children[k])| <= |Trace(n)|
    ensures Trace(n)[ChildStart(n, k)..ChildStart(n, k) + |Trace(n.children[k])|] == Trace(n.children[k])
  {
    var c := Trace(n.children[k]);
    var pre := ChildrenTrace(n, k);
    ChildrenTracePrefix(n, k + 1, |n.children|);
    var all := ChildrenTrace(n, |n.children|);
    assert all[..|pre| + |c|] == pre + c;
    var h := [n.id] + HandlerTrace(n);
    assert Trace(n) == h + all;
    assert Trace(n)[|h| + |pre|..|h| + |pre| + |c|] == all[|pre|..|pre| + |c|];
  }

  /**
   * The `@else` node of an if node is visited in full, right after the
   * condition and before the if node's own children.
   */
  lemma ElseVisitFollowsCondition(n: Node)
    requires n.kind.If? && n.kind.elseNode.Some?
    ensures var start := 1 + |HandlerExprs(n.kind)|;
            var e := Trace(n.kind.elseNode.value);
            start + |e| == ChildStart(n, 0) &&
            Trace(n)[start..start + |e|] == e
  {
    var e := Trace(n.kind.elseNode.value);
    var pre := [n.id] + Ids(HandlerExprs(n.kind));
    assert Trace(n) == pre + e + ChildrenTrace(n, |n.children|);
  }

  // ---------------------------------------------------------------------
  // The visitor

  class SetOptionsVisitor {
    /** The objects that received the options, in the order of the `set_options` calls. */
    var log: seq<ObjId>

    /** `initialize(options)` */
    constructor ()
      ensures log == []
    {
      log := [];
    }

    /** `visit(node)`: sets the node's options, then dispatches on its kind. */
    method Visit(n: Node)
      modifies this
      ensures log == old(log) + Trace(n)
      decreases n, 4
    {
      log := log + [n.id];
      Dispatch(n);
    }

    /** The base visitor's dispatch: the handler of the node's kind, or just the children. */
    method Dispatch(n: Node)
      modifies this
      ensures log == old(log) + HandlerTrace(n) + ChildrenTrace(n, |n.children|)
      decreases n, 3
    {
      match n.kind {
        case Debug(_) => VisitDebug(n);
        case Each(_) => VisitEach(n);
        case Extend(_) => VisitExtend(n);
        case For(_, _) => VisitFor(n);
        case Function(_) => VisitFunction(n);
        case If(_, _) => VisitIf(n);
        case MixinDef(_) => VisitMixinDef(n);
        case Mixin(_, _) => VisitMixin(n);
        case Prop(_, _) => VisitProp(n);
        case Return(_) => VisitReturn(n);
        case Rule(_) => VisitRule(n);
        case Variable(_) => VisitVariable(n);
        case Warn(_) => VisitWarn(n);
        case While(_) => VisitWhile(n);
        case Other =>
          assert HandlerTrace(n) == [];
          VisitChildren(n);
      }
    }

    /** The block each handler yields to: visits every child, in order. */
    method VisitChildren(n: Node)
      modifies this
      ensures log == old(log) + ChildrenTrace(n, |n.children|)
      decreases n, 0
    {
      for i := 0 to |n.children|
        invariant log == old(log) + ChildrenTrace(n, i)
      {
        Visit(n.children[i]);
      }
    }

    /** Hands the options to each expression of `es`, in order. */
    method SetOptionsOnEach(es: seq<Expr>)
      modifies this
      ensures log == old(log) + Ids(es)
    {
      for i := 0 to |es|
        invariant log == old(log) + Ids(es[..i])
      {
        assert es[..i + 1] == es[..i] + [es[i]];
        log := log + [es[i].id];
      }
      assert es[..|es|] == es;
    }

    method VisitDebug(n: Node)
      requires n.kind.Debug?
      modifies this
      ensures log == old(log) + HandlerTrace(n) + ChildrenTrace(n, |n.children|)
      decreases n, 2
    {
      log := log + [n.kind.expr.id];
      VisitChildren(n);
    }

    method VisitEach(n: Node)
      requires n.kind.Each?
      modifies this
      ensures log == old(log) + HandlerTrace(n) + ChildrenTrace(n, |n.children|)
      decreases n, 2
    {
      log := log + [n.kind.list.id];
      VisitChildren(n);
    }

    method VisitExtend(n: Node)
      requires n.kind.Extend?
      modifies this
      ensures log == old(log) + HandlerTrace(n) + ChildrenTrace(n, |n.children|)
      decreases n, 2
    {
      VisitFragments(n.kind.selector);
      VisitChildren(n);
    }

    /** `fragments.each {|c| c.set_options(@options) if c.is_a?(Sass::Script::Node)}` */
    method VisitFragments(fs: seq<Fragment>)
      modifies this
      ensures log == old(log) + Ids(ScriptExprs(fs))
    {
      for i := 0 to |fs|
        invariant log == old(log) + Ids(ScriptExprs(fs[..i]))
      {
        ScriptExprsStep(fs, i);
        if fs[i].Script? {
          log := log + [fs[i].expr.id];
        }
      }
      assert fs[..|fs|] == fs;
    }

    method VisitFor(n: Node)
      requires n.kind.For?
      modifies this
      ensures log == old(log) + HandlerTrace(n) + ChildrenTrace(n, |n.children|)
      decreases n, 2
    {
      log := log + [n.kind.from.id];
      log := log + [n.kind.to.id];
      VisitChildren(n);
    }

    /** `args.each {|k, v| k.set_options(@options); v.set_options(@options) if v}` */
    method VisitArgs(args: seq<Arg>)
      modifies this
      ensures log == old(log) + Ids(ArgExprs(args))
    {
      for i := 0 to |args|
        invariant log == old(log) + Ids(ArgExprs(args[..i]))
      {
        ArgExprsStep(args, i);
        IdsAppend(ArgExprs(args[..i]), ArgPair(args[i]));
        VisitArg(args[i]);
      }
      assert args[..|args|] == args;
    }

    /** The body of that loop for one argument. */
    method VisitArg(a: Arg)
      modifies this
      ensures log == old(log) + Ids(ArgPair(a))
    {
      log := log + [a.name.id];
      if a.defaultValue.Some? {
        assert Ids(ArgPair(a)) == [a.name.id, a.defaultValue.value.id];
        log := log + [a.defaultValue.value.id];
      } else {
        assert Ids(ArgPair(a)) == [a.name.id];
      }
    }

    method VisitFunction(n: Node)
      requires n.kind.Function?
      modifies this
      ensures log == old(log) + HandlerTrace(n) + ChildrenTrace(n, |n.children|)
      decreases n, 2
    {
      VisitArgs(n.kind.args);
      VisitChildren(n);
    }

    /** Sets the condition's options when there is one, visits the `@else` node, then the children. */
    method VisitIf(n: Node)
      requires n.kind.If?
      modifies this
      ensures log == old(log) + HandlerTrace(n) + ChildrenTrace(n, |n.children|)
      decreases n, 2
    {
      if n.kind.cond.Some? {
        log := log + [n.kind.cond.value.id];
      }
      if n.kind.elseNode.Some? {
        Visit(n.kind.elseNode.value);
      }
      VisitChildren(n);
    }

    method VisitMixinDef(n: Node)
      requires n.kind.MixinDef?
      modifies this
      ensures log == old(log) + HandlerTrace(n) + ChildrenTrace(n, |n.children|)
      decreases n, 2
    {
      VisitArgs(n.kind.params);
      VisitChildren(n);
    }

    method VisitMixin(n: Node)
      requires n.kind.Mixin?
      modifies this
      ensures log == old(log) + HandlerTrace(n) + ChildrenTrace(n, |n.children|)
      decreases n, 2
    {
      SetOptionsOnEach(n.kind.positional);
      SetOptionsOnEach(KeywordValues(n.kind.keywords));
      IdsAppend(n.kind.positional, KeywordValues(n.kind.keywords));
      VisitChildren(n);
    }

    method VisitProp(n: Node)
      requires n.kind.Prop?
      modifies this
      ensures log == old(log) + HandlerTrace(n) + ChildrenTrace(n, |n.children|)
      decreases n, 2
    {
      VisitFragments(n.kind.name);
      IdsAppend(ScriptExprs(n.kind.name), [n.kind.value]);
      log := log + [n.kind.value.id];
      VisitChildren(n);
    }

    method VisitReturn(n: Node)
      requires n.kind.Return?
      modifies this
      ensures log == old(log) + HandlerTrace(n) + ChildrenTrace(n, |n.children|)
      decreases n, 2
    {
      log := log + [n.kind.expr.id];
      VisitChildren(n);
    }

    method VisitRule(n: Node)
      requires n.kind.Rule?
      modifies this
      ensures log == old(log) + HandlerTrace(n) + ChildrenTrace(n, |n.children|)
      decreases n, 2
    {
      VisitFragments(n.kind.rule);
      VisitChildren(n);
    }

    method VisitVariable(n: Node)
      requires n.kind.Variable?
      modifies this
      ensures log == old(log) + HandlerTrace(n) + ChildrenTrace(n, |n.children|)
      decreases n, 2
    {
      log := log + [n.kind.expr.id];
      VisitChildren(n);
    }

    method VisitWarn(n: Node)
      requires n.kind.Warn?
      modifies this
      ensures log == old(log) + HandlerTrace(n) + ChildrenTrace(n, |n.children|)
      decreases n, 2
    {
      log := log + [n.kind.expr.id];
      VisitChildren(n);
    }

    method VisitWhile(n: Node)
      requires n.kind.While?
      modifies this
      ensures log == old(log) + HandlerTrace(n) + ChildrenTrace(n, |n.children|)
      decreases n, 2
    {
      log := log + [n.kind.expr.id];
      VisitChildren(n);
    }
  }

  /** `SetOptions.visit(root, options)`: a fresh visitor visits the whole tree. */
  method Run(root: Node) returns (v: SetOptionsVisitor)
    ensures fresh(v)
    ensures v.log == Trace(root)
    ensures forall m, x :: Reaches(root, m) && Owns(m, x) ==> x in v.log
    ensures forall x :: x in v.log ==> exists m :: Reaches(root, m) && Owns(m, x)
  {
    v := new SetOptionsVisitor();
    v.Visit(root);
    forall m, x | Reaches(root, m) && Owns(m, x)
      ensures x in v.log
    {
      ReachableObjectsReceiveOptions(root, m, x);
    }
    forall x | x in v.log
      ensures exists m :: Reaches(root, m) && Owns(m, x)
    {
      var m := OnlyReachableObjectsReceiveOptions(root, x);
    }
  }
}
