/** The automation engine: nodes that run their prerequisites before their own operation,
    at most once per node instance until cleared. */
module Automations {
  import opened Callbacks
  import opened Trees

  /** A dependency list, a heap object of its own so that two nodes can share it. */
  class DepList {
    var items: seq<Automation>

    constructor (items: seq<Automation>)
      ensures this.items == items
    {
      this.items := items;
    }
  }

  /** A snapshot of the dependency lists: each node mapped to the items of its list. */
  type Graph = map<Automation, seq<Automation>>

  /** A snapshot of the flags: each node mapped to its `complete` and `running`. */
  type States = map<Automation, (bool, bool)>

  /** The largest rank among `items` (0 when empty). */
  ghost function MaxRank(items: seq<Automation>): (r: nat)
    ensures forall c | c in items :: c.rank <= r
  {
    if items == [] then 0
    else
      var m := MaxRank(items[..|items| - 1]);
      var last := items[|items| - 1];
      assert forall c | c in items :: c in items[..|items| - 1] || c == last;
      if last.rank < m then m else last.rank
  }

  /** Every node reachable from `items`, the items themselves included. */
  ghost function Below(items: seq<Automation>): set<Automation>
  {
    if items == [] then {} else Below(items[..|items| - 1]) + items[|items| - 1].Nodes()
  }

  /** The dependency lists reachable from `items`. */
  ghost function ListsBelow(items: seq<Automation>): set<DepList>
  {
    if items == [] then {} else ListsBelow(items[..|items| - 1]) + items[|items| - 1].footprint
  }

  /** `Below` and `ListsBelow` cover what each item reaches. */
  lemma {:induction false} BelowCovers(items: seq<Automation>)
    ensures forall j | 0 <= j < |items| :: items[j].Nodes() <= Below(items) && items[j].footprint <= ListsBelow(items)
  {
    if items != [] {
      var prefix := items[..|items| - 1];
      BelowCovers(prefix);
      assert forall j | 0 <= j < |prefix| :: items[j] == prefix[j];
    }
  }

  /** Every node below a valid node is valid, and reaches only what that node reaches. */
  lemma ValidBelow(n: Automation)
    requires n.Valid()
    ensures forall m | m in n.below :: m.Valid() && m.Within(n) && m.automations in n.footprint
    ensures forall j | 0 <= j < |n.automations.items| :: n.automations.items[j] in n.below
  {
    forall m | m in n.below
      ensures m.Valid() && m.Within(n)
    {
      assert m.Within(n) && n.LocalBelow(m);
      forall p | p in m.below
        ensures p.automations in m.footprint && m.LocalBelow(p)
      {
        assert p.Within(m) && n.LocalBelow(p);
      }
    }
  }

  /** What `Below` and `ListsBelow` contain, for valid items. */
  lemma {:induction false} BelowFacts(items: seq<Automation>)
    requires forall c | c in items :: c.Valid()
    ensures forall m | m in Below(items) ::
      m.rank <= MaxRank(items) && m.below <= Below(items) && m.footprint <= ListsBelow(items) &&
      m.automations in ListsBelow(items) && m.Local()
  {
    if items != [] {
      var prefix, last := items[..|items| - 1], items[|items| - 1];
      assert forall c | c in prefix :: c in items;
      BelowFacts(prefix);
      assert last.Valid();
      ValidBelow(last);
      assert forall c | c in items :: c in prefix || c == last;
    }
  }

  class Automation {
    const operation: Operation
    var complete: bool
    var running: bool
    const callback: Callback
    const automations: DepList

    /** Height of the node in the dependency graph; every dependency has a smaller one. */
    ghost const rank: nat
    /** The nodes reachable from this one through dependency lists, itself excluded. */
    ghost const below: set<Automation>
    /** The dependency lists reachable from this node, its own included. */
    ghost const footprint: set<DepList>

    ghost function Nodes(): set<Automation>
    {
      {this} + below
    }

    /** Ranks drop from this node to every node below it, and `below` and `footprint` are
        closed under reachability. */
    ghost predicate Ranked()
    {
      forall m {:trigger m.Within(this)} | m in below :: m.Within(this)
    }

    /** This node sits strictly under `n`: a smaller rank, and nothing reachable from it that
        `n` does not reach. */
    ghost predicate Within(n: Automation)
    {
      rank < n.rank && below <= n.below && footprint <= n.footprint
    }

    /** The ghost bookkeeping of this node agrees with its own dependency list. */
    ghost predicate Local()
      reads automations
    {
      automations in footprint &&
      callback == CreateCallback(operation) &&
      Ranked() &&
      forall j | 0 <= j < |automations.items| :: automations.items[j] in below
    }

    /** This node and every node below it keep their bookkeeping, so the dependency graph
        below this node is acyclic and `below` and `footprint` cover it. */
    ghost predicate Valid()
      reads footprint
    {
      automations in footprint && Local() &&
      forall m {:trigger LocalBelow(m)} | m in below :: m.automations in footprint && LocalBelow(m)
    }

    /** `m`, a node below this one, keeps its bookkeeping. */
    ghost predicate LocalBelow(m: Automation)
      reads m.automations
    {
      m.Local()
    }

    /** Each node reachable from this one, mapped to the items of its list. */
    ghost function Snapshot(): (g: Graph)
      requires Valid()
      reads footprint
      ensures g.Keys == Nodes() && Closed(g)
    {
      ValidBelow(this);
      GraphFacts(this);
      map m | m in Nodes() :: m.automations.items
    }

    /** The dependency lists of the nodes reachable from this one. */
    ghost function Lists(): set<DepList>
    {
      set m | m in Nodes() :: m.automations
    }

    /** `g` holds the current dependency list of every node reachable from this one. */
    ghost predicate Agrees(g: Graph)
      reads Lists()
    {
      Listed(g) && forall m {:trigger m.Listed(g)} | m in below :: m.Listed(g)
    }

    /** `g` holds the current dependency list of this node. */
    ghost predicate Listed(g: Graph)
      reads automations
    {
      this in g && g[this] == automations.items
    }

    /** The flags of the nodes reachable from this one. */
    ghost function States(): (s: States)
      reads Nodes()
      ensures s.Keys == Nodes()
    {
      map m | m in Nodes() :: (m.complete, m.running)
    }

    /** The value-level view of this node: its operation, its flags and, in order, the views
        of its dependencies. */
    ghost function Shape(): Tree
      requires Valid()
      reads Nodes(), footprint
    {
      Unfold(Snapshot(), States(), this)
    }

    /** No node is reached from two positions of one list: the graph below this node is a
        tree, as a deep copy builds it. */
    ghost predicate Unshared()
      reads footprint
    {
      forall m {:trigger ListApart(m)} | m in Nodes() :: m.automations in footprint && ListApart(m)
    }

    /** `Automation(operation, complete, running, automations)`; `None` stands for the
        default, a fresh empty list. */
    constructor (operation: Operation, complete: bool, running: bool, automations: Option<DepList>)
      requires automations.Some? ==> forall c | c in automations.value.items :: c.Valid()
      ensures Valid()
      ensures this.operation == operation && this.complete == complete && this.running == running
      ensures automations.Some? ==> this.automations == automations.value
      ensures automations.None? ==> fresh(this.automations) && this.automations.items == []
      ensures below == Below(this.automations.items)
      ensures footprint == {this.automations} + ListsBelow(this.automations.items)
    {
      var list: DepList;
      if automations.Some? {
        list := automations.value;
      } else {
        list := new DepList([]);
      }
      this.operation := operation;
      this.complete := complete;
      this.running := running;
      this.callback := CreateCallback(operation);
      this.automations := list;
      this.rank := 1 + MaxRank(list.items);
      this.below := Below(list.items);
      this.footprint := {list} + ListsBelow(list.items);
      new;
      BelowFacts(list.items);
      BelowCovers(list.items);
      forall j | 0 <= j < |list.items|
        ensures list.items[j] in below
      {
        assert list.items[j] in list.items[j].Nodes();
      }
    }

    /** `support(operation, complete, running, automations)`: a new node whose dependency
        list is the given one (a fresh empty list by default) with this node put first. This
        node and its dependencies are left as they are. */
    method Support(operation: Operation, complete: bool, running: bool, automations: Option<DepList>)
      returns (n: Automation)
      requires Valid()
      requires automations.Some? ==>
        automations.value !in footprint &&
        forall c | c in automations.value.items :: c.Valid() && automations.value !in c.footprint
      modifies if automations.Some? then {automations.value} else {}
      ensures fresh(n) && n.Valid() && Valid()
      ensures n.operation == operation && n.complete == complete && n.running == running
      ensures automations.Some? ==>
        n.automations == automations.value && n.automations.items == [this] + old(automations.value.items)
      ensures automations.None? ==> fresh(n.automations) && n.automations.items == [this]
      ensures n.below == Below(n.automations.items)
      ensures n.footprint == {n.automations} + ListsBelow(n.automations.items)
    {
      // The receiver goes in before the node is built rather than after, which nothing can observe.
      var list: DepList;
      if automations.Some? {
        list := automations.value;
        list.items := [this] + list.items;
      } else {
        list := new DepList([this]);
      }
      n := new Automation(operation, complete, running, Some(list));
    }

    /** `supports(*nodes)`: the no-op group node that depends on exactly `nodes`, in a list of
        its own. The builder `supports` returns is this node's `Support`. */
    static method Supports(nodes: seq<Automation>) returns (group: Automation)
      requires forall c | c in nodes :: c.Valid()
      ensures fresh(group) && fresh(group.automations) && group.Valid()
      ensures group.operation == NoOp && !group.complete && !group.running
      ensures group.automations.items == nodes
      ensures group.below == Below(nodes) && group.footprint == {group.automations} + ListsBelow(nodes)
    {
      var list := new DepList(nodes);
      group := new Automation(NoOp, false, false, Some(list));
    }

    /** `automate(context)`: runs what `Run` describes over the dependency lists `g`, from the
        set of nodes complete on entry. */
    method Automate(ctx: Context, ghost g: Graph) returns (o: Outcome, ghost invoked: seq<Automation>)
      requires Closed(g) && Agrees(g)
      modifies Nodes(), ctx
      decreases rank, 2
      ensures var r := Run(g, this, ctx.kind, old(Completed(Nodes())));
        o == r.outcome && invoked == r.calls &&
        ctx.log == old(ctx.log) + Effects(r.calls, ctx.kind) &&
        (forall m | m in Nodes() :: m.complete == (old(m.complete) || m in r.finished)) &&
        (forall m | m in Nodes() :: m.running == if m in r.started then m !in r.finished else old(m.running))
    {
      ghost var done := Completed(Nodes());
      ghost var kind := ctx.kind;
      if complete {
        assert this in done;
        assert ctx.log == old(ctx.log) + Effects([], kind);
        o, invoked := Pass, [];
      } else {
        assert ClosedAt(g, this);
        NotBelowItself(this);
        RunAllBounds(g, this, |g[this]|, kind, done);
        ghost var deps := RunAll(g, this, |g[this]|, kind, done);
        running := true;
        complete := false;
        o, invoked := AutomateDependencies(ctx, g, done);
        if o.Fail? {
          assert Run(g, this, kind, done) == deps.(started := deps.started + {this});
        } else {
          LogAppend(old(ctx.log), invoked, [this], kind);
          EffectsOne(this, kind);
          ghost var log := ctx.log;
          o := callback.Call(ctx);
          assert ctx.log == log + Effects([this], kind);
          invoked := invoked + [this];
          if o.Pass? {
            running := false;
            complete := true;
          }
          assert Run(g, this, kind, done) == Execution(deps.calls + [this], deps.started + {this},
            if o.Pass? then deps.finished + {this} else deps.finished, o);
        }
        ghost var r := Run(g, this, kind, done);
        forall m | m in Nodes()
          ensures m.complete == (old(m.complete) || m in r.finished)
          ensures m.running == if m in r.started then m !in r.finished else old(m.running)
        {
          if m != this {
            assert m in below;
          }
        }
      }
    }

    /** The loop of `automate` over this node's dependencies, in order, stopping at the first
        failure; `done` are the nodes that were complete when `automate` was entered. */
    method AutomateDependencies(ctx: Context, ghost g: Graph, ghost done: set<Automation>)
      returns (o: Outcome, ghost invoked: seq<Automation>)
      requires Closed(g) && Agrees(g)
      requires forall m | m in below :: m.complete == (m in done)
      modifies below, ctx
      decreases rank, 1
      ensures var r := RunAll(g, this, |g[this]|, ctx.kind, done);
        o == r.outcome && invoked == r.calls &&
        ctx.log == old(ctx.log) + Effects(r.calls, ctx.kind) &&
        (forall m | m in below :: m.complete == (old(m.complete) || m in r.finished)) &&
        (forall m | m in below :: m.running == if m in r.started then m !in r.finished else old(m.running))
    {
      ghost var kind := ctx.kind;
      ghost var was := Running(below);
      var deps := this.automations.items;
      ghost var acc := Execution([], {}, {}, Pass);
      invoked := [];
      o := Pass;
      var i := 0;
      while i < |deps| && o.Pass?
        invariant 0 <= i <= |deps| && deps == g[this]
        invariant acc == RunAll(g, this, i, kind, done) && o == acc.outcome
        invariant o.Pass? ==> acc.started == acc.finished
        invariant acc.finished <= below - done
        invariant invoked == acc.calls
        invariant ctx.log == old(ctx.log) + Effects(acc.calls, kind)
        invariant Flags(below, done, acc, was)
      {
        ghost var ic;
        o, ic := AutomateNext(ctx, g, done, i, acc, was, old(ctx.log));
        acc := RunAll(g, this, i + 1, kind, done);
        invoked := invoked + ic;
        i := i + 1;
      }
      if o.Fail? {
        RunAllPrefixFail(g, this, i, |deps|, kind, done);
      }
      forall m | m in below
        ensures m.complete == (old(m.complete) || m in acc.finished)
        ensures m.running == if m in acc.started then m !in acc.finished else old(m.running)
      {
        assert Flagged(m, done, acc, was);
      }
    }

    /** One pass of the loop of `automate`: `automate` on the `i`-th dependency, after the
        first `i` ran as `acc` without failing and appended their effects to `log`. */
    method AutomateNext(ctx: Context, ghost g: Graph, ghost done: set<Automation>, i: nat,
                        ghost acc: Execution, ghost was: set<Automation>, ghost log: seq<nat>)
      returns (oc: Outcome, ghost ic: seq<Automation>)
      requires Closed(g) && Agrees(g) && i < |g[this]| && automations.items == g[this]
      requires acc == RunAll(g, this, i, ctx.kind, done)
      requires acc.outcome == Pass && acc.started == acc.finished && acc.finished <= below - done
      requires ctx.log == log + Effects(acc.calls, ctx.kind)
      requires Flags(below, done, acc, was)
      modifies below, ctx
      decreases rank, 0
      ensures var next := RunAll(g, this, i + 1, ctx.kind, done);
        oc == next.outcome && next.calls == acc.calls + ic &&
        next.finished <= below - done && (oc.Pass? ==> next.started == next.finished) &&
        ctx.log == log + Effects(next.calls, ctx.kind) &&
        Flags(below, done, next, was)
    {
      ghost var kind := ctx.kind;
      var c := automations.items[i];
      AgreesBelow(this, i, g);
      ghost var before := done + acc.finished;
      ghost var c0, r0 := Completed(below), Running(below);
      forall m | m in below
        ensures m.complete == (m in before)
        ensures (m in c0 <==> m in done || m in acc.finished) &&
          (m in r0 <==> if m in acc.started then m !in acc.finished else m in was)
      {
        assert Flagged(m, done, acc, was);
      }
      CompletedWithin(c.Nodes(), before);
      RunLocal(g, c, kind, Completed(c.Nodes()), before);
      RunBounds(g, c, kind, before);
      ghost var rc := Run(g, c, kind, before);
      LogAppend(log, acc.calls, rc.calls, kind);
      ghost var log0 := ctx.log;
      oc, ic := c.Automate(ctx, g);
      FlagsStep(below, c.Nodes(), done, acc, rc, was, c0, r0);
      assert ctx.log == log0 + Effects(rc.calls, kind);
    }

    /** `copy(deep, separate, complete)`: with neither flag the copy shares this node's
        dependency list; `separate` alone gives it a fresh list of the same nodes; `deep` copies
        every dependency recursively, passing the override down. */
    method Copy(deep: bool, separate: bool, complete: Option<bool>) returns (n: Automation)
      requires Valid()
      decreases rank, 3
      ensures fresh(n) && n.Valid()
      ensures n.operation == operation && !n.running && n.complete == complete.UnwrapOr(this.complete)
      ensures !deep && !separate ==> n.automations == automations
      ensures !deep && separate ==> fresh(n.automations) && n.automations.items == automations.items
      ensures !deep ==> n.Shape() == old(Shape()).(complete := complete.UnwrapOr(this.complete), running := false)
      ensures !deep ==> n.below == Below(n.automations.items) && n.below <= below
      ensures !deep ==> n.footprint == {n.automations} + ListsBelow(n.automations.items)
      ensures deep ==> (forall m | m in n.Nodes() :: fresh(m)) && (forall l | l in n.footprint :: fresh(l))
      ensures deep ==> n.Shape() == Copied(old(Shape()), complete) && n.Unshared()
    {
      if deep {
        n := CopyDeep(complete);
      } else {
        n := CopyShallow(separate, complete);
      }
    }

    /** The `deep` branch of `copy`: a new node over a new list of deep copies. */
    method CopyDeep(complete: Option<bool>) returns (n: Automation)
      requires Valid()
      decreases rank, 2
      ensures fresh(n) && n.Valid()
      ensures n.operation == operation && !n.running && n.complete == complete.UnwrapOr(this.complete)
      ensures (forall m | m in n.Nodes() :: fresh(m)) && (forall l | l in n.footprint :: fresh(l))
      ensures n.Shape() == Copied(old(Shape()), complete) && n.Unshared()
    {
      ghost var want := Copied(Shape(), complete);
      var copies := CopyDependencies(complete);
      assert |copies| == |want.deps|;
      label Copied:
      var list := new DepList(copies);
      n := new Automation(operation, complete.UnwrapOr(this.complete), false, Some(list));
      forall m | m in n.Nodes()
        ensures fresh(m)
      {
        if m != n {
          assert m in Below(copies);
        }
      }
      forall l | l in n.footprint
        ensures fresh(l)
      {
        if l != list {
          assert l in ListsBelow(copies);
        }
      }
      ShapeUnfolds(n);
      forall j | 0 <= j < |copies|
        ensures n.Shape().deps[j] == want.deps[j] && copies[j].Valid() && copies[j].Unshared()
      {
        ShapeKept@Copied(copies[j]);
      }
      assert n.Shape().deps == want.deps;
      UnsharedJoin(n);
    }

    /** The other branches of `copy`: a new node over this node's list or over a new list of
        the same nodes. */
    method CopyShallow(separate: bool, complete: Option<bool>) returns (n: Automation)
      requires Valid()
      ensures fresh(n) && n.Valid()
      ensures n.operation == operation && !n.running && n.complete == complete.UnwrapOr(this.complete)
      ensures !separate ==> n.automations == automations
      ensures separate ==> fresh(n.automations) && n.automations.items == automations.items
      ensures n.Shape() == old(Shape()).(complete := complete.UnwrapOr(this.complete), running := false)
      ensures n.below == Below(n.automations.items) && n.below <= below
      ensures n.footprint == {n.automations} + ListsBelow(n.automations.items)
    {
      ShapeUnfolds(this);
      ValidBelow(this);
      ghost var g, st := Snapshot(), States();
      var items := automations.items;
      BelowWithin(this);
      var list: DepList;
      if separate {
        list := new DepList(items);
      } else {
        list := automations;
      }
      n := new Automation(operation, complete.UnwrapOr(this.complete), false, Some(list));
      ShallowShape(this, n, g, st);
    }

    /** The list comprehension of a deep copy: each dependency copied deeply, in order. */
    method CopyDependencies(complete: Option<bool>) returns (copies: seq<Automation>)
      requires Valid()
      decreases rank, 1
      ensures |copies| == |old(Shape()).deps|
      ensures forall j | 0 <= j < |copies| :: CopiedFrom(copies[j], old(Shape()).deps[j], complete)
      ensures forall m | m in Below(copies) :: fresh(m)
      ensures forall l | l in ListsBelow(copies) :: fresh(l)
      ensures Apart(copies)
    {
      ShapeUnfolds(this);
      ghost var views := Shape().deps;
      var items := automations.items;
      copies := [];
      while |copies| < |items|
        invariant |copies| <= |items| == |views| && views == old(Shape()).deps
        invariant forall j | 0 <= j < |copies| :: CopiedFrom(copies[j], views[j], complete)
        invariant forall m | m in Below(copies) :: fresh(m)
        invariant forall l | l in ListsBelow(copies) :: fresh(l)
        invariant Apart(copies)
      {
        ShapeKept(items[|copies|]);
        copies := CopyNext(complete, views, copies);
      }
    }

    /** One step of the comprehension: the deep copy of the next dependency appended to the
        copies made so far. */
    method CopyNext(complete: Option<bool>, ghost views: seq<Tree>, copies: seq<Automation>)
      returns (next: seq<Automation>)
      requires Valid() && |copies| < |automations.items| == |views|
      requires automations.items[|copies|].Valid() && automations.items[|copies|].Shape() == views[|copies|]
      requires forall j | 0 <= j < |copies| :: CopiedFrom(copies[j], views[j], complete)
      requires Apart(copies)
      decreases rank, 0
      ensures |next| == |copies| + 1 && next[..|copies|] == copies
      ensures forall m | m in next[|copies|].Nodes() :: fresh(m)
      ensures Apart(next)
      ensures forall j | 0 <= j < |next| :: CopiedFrom(next[j], views[j], complete)
      ensures forall m | m in Below(next) :: m in Below(copies) || fresh(m)
      ensures forall l | l in ListsBelow(next) :: l in ListsBelow(copies) || fresh(l)
    {
      var k := |copies|;
      AllocatedBelow(copies);
      ValidBelow(this);
      var item := automations.items[k];
      assert item in below && item.Within(this);
      var c := item.Copy(true, false, complete);
      forall j | 0 <= j < k
        ensures CopiedFrom(copies[j], views[j], complete)
      {
        ShapeKept(copies[j]);
      }
      next := copies + [c];
      CopiedAppend(copies, c, views, complete);
      assert next[..k] == copies && next[k] == c;
      assert Below(next) == Below(copies) + c.Nodes();
      assert ListsBelow(next) == ListsBelow(copies) + c.footprint;
      assert c.Nodes() !! Below(copies);
      ApartAppend(copies, c);
    }

    /** `clear()`: only this node becomes incomplete again. */
    method Clear()
      modifies this`complete
      ensures !complete
    {
      complete := false;
    }
  }

  /** Every node of `g` keeps its rank bookkeeping, and the items of its list are in `g` and
      below it. */
  ghost predicate Closed(g: Graph)
  {
    forall a {:trigger ClosedAt(g, a)} | a in g :: ClosedAt(g, a)
  }

  /** `a` is in `g`, keeps its rank bookkeeping, and each item of its list is in `g` and below
      it. */
  ghost predicate ClosedAt(g: Graph, a: Automation)
  {
    a in g && a.Ranked() && forall j | 0 <= j < |g[a]| :: g[a][j] in g && g[a][j] in a.below
  }

  /** The nodes of `s` that are complete, when exactly those in `d` are. */
  lemma CompletedWithin(s: set<Automation>, d: set<Automation>)
    requires forall m | m in s :: m.complete == (m in d)
    ensures Completed(s) == d * s
  {
  }

  /** A dependency of a node that agrees with `g` agrees with `g` too. */
  lemma AgreesBelow(n: Automation, j: nat, g: Graph)
    requires Closed(g) && n.Agrees(g) && j < |n.automations.items|
    ensures var c := n.automations.items[j];
      c.Agrees(g) && c in g && c.Nodes() <= n.below && c.rank < n.rank
  {
    assert ClosedAt(g, n);
    var c := n.automations.items[j];
    assert c in n.below && c.Within(n);
  }

  /** The flags of the nodes in `scope` after the run `e`, from the completed nodes `done`
      and the running nodes `was` before it. */
  ghost predicate Flags(scope: set<Automation>, done: set<Automation>, e: Execution, was: set<Automation>)
    reads scope
  {
    forall m {:trigger Flagged(m, done, e, was)} | m in scope :: Flagged(m, done, e, was)
  }

  /** The flags of `m` after the run `e`, as `Flags` states them. */
  ghost predicate Flagged(m: Automation, done: set<Automation>, e: Execution, was: set<Automation>)
    reads m
  {
    m.complete == (m in done || m in e.finished) &&
    m.running == if m in e.started then m !in e.finished else m in was
  }

  /** One more run `l` within `reach`, as `automate` on a dependency leaves the flags, extends
      the flags of `scope` from the run `e` to `e` followed by `l`; `c0` and `r0` are the
      complete and running nodes before `l`. */
  lemma FlagsStep(scope: set<Automation>, reach: set<Automation>, done: set<Automation>,
                  e: Execution, l: Execution, was: set<Automation>, c0: set<Automation>, r0: set<Automation>)
    requires forall m | m in scope ::
      (m in c0 <==> m in done || m in e.finished) &&
      (m in r0 <==> if m in e.started then m !in e.finished else m in was)
    requires l.finished <= l.started <= reach - (done + e.finished) && e.finished <= e.started
    requires forall m | m in reach ::
      m.complete == (m in c0 || m in l.finished) &&
      m.running == if m in l.started then m !in l.finished else m in r0
    requires forall m | m in scope && m !in reach :: m.complete == (m in c0) && m.running == (m in r0)
    ensures Flags(scope, done, Execution(e.calls + l.calls, e.started + l.started, e.finished + l.finished, l.outcome), was)
  {
  }

  /** The `j`-th dependency of `n` in `g` is in `g` and strictly under `n`. */
  lemma ChildOf(g: Graph, n: Automation, j: nat)
    requires Closed(g) && n in g && j < |g[n]|
    ensures var c := g[n][j];
      c in g && c in n.below && c.Within(n) && c.rank < n.rank && c.Nodes() <= n.below
  {
    assert ClosedAt(g, n);
    assert g[n][j].Within(n);
  }

  /** No node is below itself. */
  lemma NotBelowItself(n: Automation)
    requires n.Ranked()
    ensures n !in n.below
  {
    assert n in n.below ==> n.Within(n);
  }

  /** The snapshot of the lists reachable from a valid node is closed and agrees with them. */
  lemma GraphFacts(n: Automation)
    requires n.Valid()
    ensures var g := map m | m in n.Nodes() :: m.automations.items;
      Closed(g) && n.Agrees(g)
  {
    ValidBelow(n);
    var g := map m | m in n.Nodes() :: m.automations.items;
    forall a | a in g
      ensures ClosedAt(g, a)
    {
      assert a.Valid() && a.Nodes() <= n.Nodes() by {
        if a != n {
          assert a.Within(n);
        }
      }
      ValidBelow(a);
    }
    forall m | m in n.below
      ensures m.Listed(g)
    {
    }
  }

  /** The tree below `n` in the snapshot `g`, with the flags of `s`. */
  ghost function Unfold(g: Graph, s: States, n: Automation): (t: Tree)
    requires Closed(g) && n in g && g.Keys <= s.Keys
    decreases n.rank
    ensures t.operation == n.operation && (t.complete, t.running) == s[n] && |t.deps| == |g[n]|
  {
    Tree(n.operation, s[n].0, s[n].1,
         seq(|g[n]|, j requires 0 <= j < |g[n]| => ChildOf(g, n, j); Unfold(g, s, g[n][j])))
  }

  /** Two snapshots that agree on what `n` reaches unfold `n` alike. */
  lemma {:induction false} UnfoldLocal(g1: Graph, s1: States, g2: Graph, s2: States, n: Automation)
    requires Closed(g1) && n in g1 && g1.Keys <= s1.Keys
    requires Closed(g2) && n in g2 && g2.Keys <= s2.Keys
    requires forall m | m in n.Nodes() :: m in g1 && m in g2 && g1[m] == g2[m] && s1[m] == s2[m]
    decreases n.rank
    ensures Unfold(g1, s1, n) == Unfold(g2, s2, n)
  {
    assert n in n.Nodes();
    var t1, t2 := Unfold(g1, s1, n), Unfold(g2, s2, n);
    forall j | 0 <= j < |g1[n]|
      ensures t1.deps[j] == t2.deps[j]
    {
      var c := g1[n][j];
      ChildOf(g1, n, j);
      ChildOf(g2, n, j);
      UnfoldLocal(g1, s1, g2, s2, c);
    }
  }

  /** The view of a valid node is its own flags over the views of its dependencies. */
  lemma ShapeUnfolds(n: Automation)
    requires n.Valid()
    ensures forall j | 0 <= j < |n.automations.items| :: n.automations.items[j].Valid()
    ensures var t := n.Shape();
      t.operation == n.operation && t.complete == n.complete && t.running == n.running &&
      |t.deps| == |n.automations.items| &&
      forall j | 0 <= j < |t.deps| :: t.deps[j] == n.automations.items[j].Shape()
  {
    ValidBelow(n);
    var items := n.automations.items;
    var t := n.Shape();
    forall j | 0 <= j < |items|
      ensures t.deps[j] == items[j].Shape()
    {
      var c := items[j];
      assert c in items;
      UnfoldLocal(n.Snapshot(), n.States(), c.Snapshot(), c.States(), c);
    }
  }

  /** A valid node's view is its unfolding in any snapshot that holds, for every node it
      reaches, that node's current list and flags. */
  lemma ViewsAgree(n: Automation, g: Graph, s: States)
    requires n.Valid() && Closed(g) && g.Keys <= s.Keys
    requires forall m | m in n.Nodes() :: m in g && g[m] == m.automations.items && s[m] == (m.complete, m.running)
    ensures n in g && n.Shape() == Unfold(g, s, n)
  {
    assert n in n.Nodes();
    UnfoldLocal(n.Snapshot(), n.States(), g, s, n);
  }

  /** A node's view survives any change that leaves what it reaches untouched. */
  twostate lemma ShapeKept(n: Automation)
    requires old(allocated(n)) && old(n.Valid())
    requires forall o: object | old(allocated(o)) :: Untouched(o)
    ensures n.Valid() && n.Shape() == old(n.Shape()) && n.Unshared() == old(n.Unshared())
  {
    assert forall m | m in n.Nodes() :: old(allocated(m)) && Untouched(m);
    assert forall l | l in n.footprint :: old(allocated(l)) && Untouched(l);
  }

  /** `o` is as it was. */
  twostate predicate Untouched(o: object)
    reads o
  {
    unchanged(o)
  }

  /** Copies of the first views, followed by a copy of the next one, are copies of the views
      one further. */
  lemma CopiedAppend(copies: seq<Automation>, c: Automation, views: seq<Tree>, complete: Option<bool>)
    requires |copies| < |views|
    requires forall j | 0 <= j < |copies| :: CopiedFrom(copies[j], views[j], complete)
    requires CopiedFrom(c, views[|copies|], complete)
    ensures forall j | 0 <= j < |copies + [c]| :: CopiedFrom((copies + [c])[j], views[j], complete)
  {
    forall j | 0 <= j < |copies + [c]|
      ensures CopiedFrom((copies + [c])[j], views[j], complete)
    {
      if j < |copies| {
        assert (copies + [c])[j] == copies[j];
      }
    }
  }

  /** `c` is a valid node whose view is the deep copy of `t` with the override `complete`. */
  ghost predicate CopiedFrom(c: Automation, t: Tree, complete: Option<bool>)
    reads c.Nodes(), c.footprint
  {
    c.Valid() && c.Shape() == Copied(t, complete) && c.Unshared()
  }

  /** The nodes at different positions of `items` reach disjoint sets of nodes. */
  ghost predicate Apart(items: seq<Automation>)
  {
    forall i, j | 0 <= i < j < |items| :: Disjoint(items[i], items[j])
  }

  /** The list of `m` holds nodes that reach no node in common. */
  ghost predicate ListApart(m: Automation)
    reads m.automations
  {
    Apart(m.automations.items)
  }

  /** `a` and `b` reach no node in common. */
  ghost predicate Disjoint(a: Automation, b: Automation)
  {
    a.Nodes() !! b.Nodes()
  }

  /** Appending a node that reaches none of the nodes `items` reach keeps them apart. */
  lemma ApartAppend(items: seq<Automation>, c: Automation)
    requires Apart(items) && c.Nodes() !! Below(items)
    ensures Apart(items + [c])
  {
    BelowCovers(items);
    var next := items + [c];
    forall i, j | 0 <= i < j < |next|
      ensures Disjoint(next[i], next[j])
    {
      assert next[i] == items[i];
      if j < |items| {
        assert next[j] == items[j];
      }
    }
  }

  /** What `items` reach is allocated. */
  lemma AllocatedBelow(items: seq<Automation>)
    ensures forall m | m in Below(items) :: allocated(m)
  {
    forall m | m in Below(items)
      ensures allocated(m)
    {
      BelowMember(items, m);
    }
  }

  /** A valid node `n` over the items of `a`'s list has `a`'s view with its own flags, when the
      snapshots `g` and `s` hold the lists and flags of everything `a` reaches. */
  lemma ShallowShape(a: Automation, n: Automation, g: Graph, s: States)
    requires a.Valid() && n.Valid() && n.operation == a.operation
    requires n.automations.items == a.automations.items
    requires Closed(g) && g.Keys <= s.Keys && a in g && g[a] == a.automations.items
    requires forall m | m in a.below :: m in g && g[m] == m.automations.items && s[m] == (m.complete, m.running)
    ensures n.Shape() == Unfold(g, s, a).(complete := n.complete, running := n.running)
  {
    ValidBelow(a);
    ShapeUnfolds(n);
    var items := a.automations.items;
    var t := Unfold(g, s, a);
    forall j | 0 <= j < |items|
      ensures n.Shape().deps[j] == t.deps[j]
    {
      ChildOf(g, a, j);
      ViewsAgree(items[j], g, s);
    }
  }

  /** What the items of a valid node's list reach, the node reaches. */
  lemma BelowWithin(n: Automation)
    requires n.Valid()
    ensures Below(n.automations.items) <= n.below
  {
    ValidBelow(n);
    var items := n.automations.items;
    forall m | m in Below(items)
      ensures m in n.below
    {
      BelowMember(items, m);
      var j :| 0 <= j < |items| && m in items[j].Nodes();
      assert items[j] in n.below && items[j].Within(n);
    }
  }

  /** A node of `Below(items)` is reached from one of the items. */
  lemma {:induction false} BelowMember(items: seq<Automation>, m: Automation)
    requires m in Below(items)
    ensures exists j :: 0 <= j < |items| && m in items[j].Nodes()
  {
    var k := |items| - 1;
    if m !in items[k].Nodes() {
      BelowMember(items[..k], m);
      var j :| 0 <= j < k && m in items[..k][j].Nodes();
      assert items[j] == items[..k][j];
    }
  }

  /** In an unshared node, the same node never occupies two positions of a list: a deep copy
      of a list holding one node twice holds two different copies. */
  lemma UnsharedDistinct(n: Automation, m: Automation)
    requires n.Unshared() && m in n.Nodes()
    ensures Distinct(m.automations.items)
  {
    assert ListApart(m);
    var items := m.automations.items;
    forall i, j | 0 <= i < j < |items|
      ensures items[i] != items[j]
    {
      assert Disjoint(items[i], items[j]) && items[i] in items[i].Nodes();
    }
  }

  /** A node whose list holds apart, unshared nodes and reaches exactly what they reach is
      unshared. */
  lemma UnsharedJoin(n: Automation)
    requires n.Valid() && n.below == Below(n.automations.items) && Apart(n.automations.items)
    requires forall j | 0 <= j < |n.automations.items| :: n.automations.items[j].Valid() && n.automations.items[j].Unshared()
    ensures n.Unshared()
  {
    ValidBelow(n);
    var items := n.automations.items;
    forall m | m in n.Nodes()
      ensures m.automations in n.footprint && ListApart(m)
    {
      if m != n {
        BelowMember(items, m);
        var j :| 0 <= j < |items| && m in items[j].Nodes();
        assert items[j].Unshared() && m in items[j].Nodes();
      }
    }
  }

  /** The nodes of `s` that are running. */
  ghost function Running(s: set<Automation>): set<Automation>
    reads s
  {
    set m | m in s && m.running
  }

  /** The nodes of `s` that are complete. */
  ghost function Completed(s: set<Automation>): set<Automation>
    reads s
  {
    set m | m in s && m.complete
  }

  ghost predicate Distinct(s: seq<Automation>)
  {
    forall i, j | 0 <= i < j < |s| :: s[i] != s[j]
  }

  /** Every invoked node's dependencies were complete beforehand (in `done`) or were invoked
      earlier in `calls`. */
  ghost predicate DepsFirst(g: Graph, calls: seq<Automation>, done: set<Automation>)
  {
    forall i {:trigger ReadyAt(g, calls, i, done)} | 0 <= i < |calls| :: ReadyAt(g, calls, i, done)
  }

  /** The dependencies of the `i`-th invoked node were complete beforehand (in `done`) or were
      invoked before it. */
  ghost predicate ReadyAt(g: Graph, calls: seq<Automation>, i: int, done: set<Automation>)
  {
    0 <= i < |calls| && calls[i] in g && forall c | c in g[calls[i]] :: c in done || c in calls[..i]
  }

  /** What appears in the context's log when the nodes `calls` are invoked in order. */
  ghost function Effects(calls: seq<Automation>, kind: ContextType): seq<nat>
  {
    EffectsUpTo(calls, |calls|, kind)
  }

  /** What appears in the context's log when the first `i` nodes of `calls` are invoked. */
  ghost function EffectsUpTo(calls: seq<Automation>, i: nat, kind: ContextType): seq<nat>
    requires i <= |calls|
  {
    if i == 0 then [] else EffectsUpTo(calls, i - 1, kind) + calls[i - 1].callback.Effect(kind)
  }

  /** One run of `automate`: the nodes whose callback was invoked, in order; the nodes that got
      past the completion guard; those that ended complete; and the result. */
  datatype Execution = Execution(
    calls: seq<Automation>, started: set<Automation>, finished: set<Automation>, outcome: Outcome)

  /** Reference semantics of `automate` on `n` over the lists `g` when the nodes in `done` are
      complete. */
  ghost function Run(g: Graph, n: Automation, kind: ContextType, done: set<Automation>): Execution
    requires Closed(g) && n in g
    decreases n.rank, 1
  {
    if n in done then Execution([], {}, {}, Pass)
    else
      var deps := RunAll(g, n, |g[n]|, kind, done);
      if deps.outcome.Fail? then deps.(started := deps.started + {n})
      else
        var o := n.callback.Invoke(kind);
        Execution(deps.calls + [n], deps.started + {n}, if o.Pass? then deps.finished + {n} else deps.finished, o)
  }

  /** The loop of `automate` over the first `i` dependencies of `n`, left to right, stopping at
      the first failure. */
  ghost function RunAll(g: Graph, n: Automation, i: nat, kind: ContextType, done: set<Automation>): Execution
    requires Closed(g) && n in g && i <= |g[n]|
    decreases n.rank, 0, i
  {
    if i == 0 then Execution([], {}, {}, Pass)
    else
      var p := RunAll(g, n, i - 1, kind, done);
      if p.outcome.Fail? then p
      else
        var c := g[n][i - 1];
        ChildOf(g, n, i - 1);
        var l := Run(g, c, kind, done + p.finished);
        Execution(p.calls + l.calls, p.started + l.started, p.finished + l.finished, l.outcome)
  }

  /** The facts every run satisfies, within the nodes `scope` it may touch. */
  ghost predicate Sound(e: Execution, g: Graph, done: set<Automation>, scope: set<Automation>)
  {
    e.finished <= e.started <= scope - done &&
    (forall i | 0 <= i < |e.calls| :: e.calls[i] in e.started) &&
    Distinct(e.calls) &&
    DepsFirst(g, e.calls, done) &&
    (forall m {:trigger Called(e.calls, m)} | m in e.finished :: Called(e.calls, m)) &&
    (e.outcome.Pass? ==> e.started == e.finished && forall i | 0 <= i < |e.calls| :: e.calls[i] in e.finished) &&
    (e.outcome.Fail? ==>
      e.calls != [] && e.calls[|e.calls| - 1] !in e.finished &&
      forall i | 0 <= i < |e.calls| - 1 :: e.calls[i] in e.finished)
  }

  /** `m` was invoked: it occurs in `calls`. */
  ghost predicate Called(calls: seq<Automation>, m: Automation)
  {
    m in calls
  }

  /** Running `l` after a passing `p`, from what `p` left complete, is sound as a whole. */
  lemma SoundAppend(p: Execution, l: Execution, g: Graph, done: set<Automation>,
                    sp: set<Automation>, sl: set<Automation>, scope: set<Automation>)
    requires p.outcome.Pass? && Sound(p, g, done, sp) && Sound(l, g, done + p.finished, sl)
    requires sp <= scope && sl <= scope
    ensures Sound(Execution(p.calls + l.calls, p.started + l.started, p.finished + l.finished, l.outcome), g, done, scope)
  {
    var calls := p.calls + l.calls;
    forall i | 0 <= i < |calls|
      ensures calls[i] in p.started + l.started
      ensures i < |p.calls| ==> calls[i] in p.finished
      ensures i >= |p.calls| ==> calls[i] == l.calls[i - |p.calls|] && calls[i] in l.started
    {
    }
    forall i, j | 0 <= i < j < |calls|
      ensures calls[i] != calls[j]
    {
    }
    forall m | m in p.finished + l.finished
      ensures Called(calls, m)
    {
      if m in p.finished {
        assert Called(p.calls, m);
      } else {
        assert Called(l.calls, m);
      }
    }
    DepsFirstAppend(g, p.calls, l.calls, done, p.finished);
  }

  /** Invoking `a` and then `b` keeps dependencies first when `b`'s were complete or finished
      by `a`. */
  lemma DepsFirstAppend(g: Graph, a: seq<Automation>, b: seq<Automation>, done: set<Automation>,
                        extra: set<Automation>)
    requires DepsFirst(g, a, done) && DepsFirst(g, b, done + extra)
    requires forall m {:trigger Called(a, m)} | m in extra :: Called(a, m)
    ensures DepsFirst(g, a + b, done)
  {
    var s := a + b;
    forall i | 0 <= i < |s|
      ensures ReadyAt(g, s, i, done)
    {
      if i < |a| {
        assert ReadyAt(g, a, i, done);
        assert s[i] == a[i] && s[..i] == a[..i];
      } else {
        assert ReadyAt(g, b, i - |a|, done + extra);
        assert s[i] == b[i - |a|];
        assert s[..i] == a + b[..i - |a|];
        forall c | c in g[s[i]]
          ensures c in done || c in s[..i]
        {
          if c in extra {
            assert Called(a, c);
          }
        }
      }
    }
  }

  /** A log extended by the effects of `a` and then of `b` is extended by those of `a + b`. */
  lemma LogAppend(log: seq<nat>, a: seq<Automation>, b: seq<Automation>, kind: ContextType)
    ensures log + Effects(a + b, kind) == (log + Effects(a, kind)) + Effects(b, kind)
  {
    EffectsAppend(a, b, kind);
  }

  lemma EffectsAppend(a: seq<Automation>, b: seq<Automation>, kind: ContextType)
    ensures Effects(a + b, kind) == Effects(a, kind) + Effects(b, kind)
  {
    EffectsPrefix(a, b, |a|, kind);
    EffectsShift(a, b, |b|, kind);
  }

  /** Invoking one node has the effect of its callback. */
  lemma EffectsOne(n: Automation, kind: ContextType)
    ensures Effects([n], kind) == n.callback.Effect(kind)
  {
    assert EffectsUpTo([n], 0, kind) == [];
  }

  /** The effects of a prefix of `a` are the same within `a + b`. */
  lemma {:induction false} EffectsPrefix(a: seq<Automation>, b: seq<Automation>, i: nat, kind: ContextType)
    requires i <= |a|
    ensures EffectsUpTo(a + b, i, kind) == EffectsUpTo(a, i, kind)
  {
    if i > 0 {
      EffectsPrefix(a, b, i - 1, kind);
      assert (a + b)[i - 1] == a[i - 1];
    }
  }

  /** Invoking all of `a` and then `j` nodes of `b` has the effects of both in turn. */
  lemma {:induction false} EffectsShift(a: seq<Automation>, b: seq<Automation>, j: nat, kind: ContextType)
    requires j <= |b| && EffectsUpTo(a + b, |a|, kind) == Effects(a, kind)
    ensures EffectsUpTo(a + b, |a| + j, kind) == Effects(a, kind) + EffectsUpTo(b, j, kind)
  {
    if j > 0 {
      EffectsShift(a, b, j - 1, kind);
      assert (a + b)[|a| + j - 1] == b[j - 1];
    }
  }

  /** Everything a run of `automate` on `n` promises: see `Sound`; besides, a node that was not
      complete gets started, fails with the run or ends complete. */
  lemma {:induction false} RunFacts(g: Graph, n: Automation, kind: ContextType, done: set<Automation>)
    requires Closed(g) && n in g
    decreases n.rank, 1
    ensures var r := Run(g, n, kind, done);
      Sound(r, g, done, n.Nodes()) &&
      (n !in done ==> n in r.started) &&
      (r.outcome.Pass? ==> n in done || n in r.finished) &&
      (r.outcome.Fail? ==> n !in r.finished)
  {
    if n !in done {
      var deps := RunAll(g, n, |g[n]|, kind, done);
      RunAllFacts(g, n, |g[n]|, kind, done);
      assert ClosedAt(g, n);
      NotBelowItself(n);
      var r := Run(g, n, kind, done);
      if deps.outcome.Pass? {
        RunPassStep(g, n, deps, kind, done);
      }
    }
  }

  /** After a run on `n` that passed, running `n` again from what it left complete invokes
      nothing and changes nothing. */
  lemma RunOnce(g: Graph, n: Automation, kind: ContextType, done: set<Automation>)
    requires Closed(g) && n in g && Run(g, n, kind, done).outcome.Pass?
    ensures Run(g, n, kind, done + Run(g, n, kind, done).finished) == Execution([], {}, {}, Pass)
  {
    RunFacts(g, n, kind, done);
  }

  /** The passing case of `RunFacts`: the dependencies passed and `n` itself was invoked. */
  lemma RunPassStep(g: Graph, n: Automation, deps: Execution, kind: ContextType, done: set<Automation>)
    requires Closed(g) && n in g && n !in done && n !in n.below
    requires deps == RunAll(g, n, |g[n]|, kind, done) && deps.outcome.Pass?
    requires Sound(deps, g, done, n.below)
    requires forall j | 0 <= j < |g[n]| :: g[n][j] in done || g[n][j] in deps.finished
    ensures var r := Run(g, n, kind, done);
      Sound(r, g, done, n.Nodes()) && n in r.started &&
      (r.outcome.Pass? ==> n in r.finished) && (r.outcome.Fail? ==> n !in r.finished)
  {
    var r := Run(g, n, kind, done);
    assert r.calls == deps.calls + [n];
    forall c | c in g[n]
      ensures c in done || c in deps.finished
    {
      var j :| 0 <= j < |g[n]| && g[n][j] == c;
    }
    assert ReadyAt(g, [n], 0, done + deps.finished);
    DepsFirstAppend(g, deps.calls, [n], done, deps.finished);
    forall m | m in r.finished
      ensures Called(r.calls, m)
    {
      if m != n {
        assert Called(deps.calls, m);
      }
    }
  }

  /** What a run on `n` may touch, for use where the rest of `Sound` is not needed. */
  lemma RunBounds(g: Graph, n: Automation, kind: ContextType, done: set<Automation>)
    requires Closed(g) && n in g
    ensures var r := Run(g, n, kind, done);
      r.finished <= r.started <= n.Nodes() - done && (r.outcome.Pass? ==> r.started == r.finished)
  {
    RunFacts(g, n, kind, done);
  }

  /** What a run over the first `i` dependencies of `n` may touch, for use where the rest of
      `Sound` is not needed. */
  lemma RunAllBounds(g: Graph, n: Automation, i: nat, kind: ContextType, done: set<Automation>)
    requires Closed(g) && n in g && i <= |g[n]|
    ensures var r := RunAll(g, n, i, kind, done);
      r.finished <= r.started <= n.below - done && (r.outcome.Pass? ==> r.started == r.finished)
  {
    RunAllFacts(g, n, i, kind, done);
  }

  /** Everything a run over the first `i` dependencies of `n` promises: see `Sound`; besides,
      when it passes, each of those dependencies was complete or ended complete. */
  lemma {:induction false} RunAllFacts(g: Graph, n: Automation, i: nat, kind: ContextType, done: set<Automation>)
    requires Closed(g) && n in g && i <= |g[n]|
    decreases n.rank, 0, i
    ensures var r := RunAll(g, n, i, kind, done);
      Sound(r, g, done, n.below) &&
      (r.outcome.Pass? ==> forall j | 0 <= j < i :: g[n][j] in done || g[n][j] in r.finished)
  {
    if i > 0 {
      var p := RunAll(g, n, i - 1, kind, done);
      RunAllFacts(g, n, i - 1, kind, done);
      if p.outcome.Pass? {
        var c := g[n][i - 1];
        ChildOf(g, n, i - 1);
        var d := done + p.finished;
        var l := Run(g, c, kind, d);
        RunFacts(g, c, kind, d);
        var r := Execution(p.calls + l.calls, p.started + l.started, p.finished + l.finished, l.outcome);
        assert RunAll(g, n, i, kind, done) == r;
        SoundAppend(p, l, g, done, n.below, c.Nodes(), n.below);
        if r.outcome.Pass? {
          forall j | 0 <= j < i
            ensures g[n][j] in done || g[n][j] in r.finished
          {
          }
        }
      }
    }
  }

  /** A run depends only on which nodes it can reach are complete. */
  lemma {:induction false} RunLocal(g: Graph, n: Automation, kind: ContextType, d1: set<Automation>, d2: set<Automation>)
    requires Closed(g) && n in g
    requires d1 * n.Nodes() == d2 * n.Nodes()
    decreases n.rank, 1
    ensures Run(g, n, kind, d1) == Run(g, n, kind, d2)
  {
    assert n in n.Nodes();
    assert n in d1 * n.Nodes() <==> n in d2 * n.Nodes();
    SameWithin(d1, d2, n.Nodes(), n.below, {});
    assert d1 + {} == d1 && d2 + {} == d2;
    RunAllLocal(g, n, |g[n]|, kind, d1, d2);
  }

  lemma {:induction false} RunAllLocal(g: Graph, n: Automation, i: nat, kind: ContextType,
                                       d1: set<Automation>, d2: set<Automation>)
    requires Closed(g) && n in g && i <= |g[n]|
    requires d1 * n.below == d2 * n.below
    decreases n.rank, 0, i
    ensures RunAll(g, n, i, kind, d1) == RunAll(g, n, i, kind, d2)
  {
    if i > 0 {
      RunAllLocal(g, n, i - 1, kind, d1, d2);
      var p := RunAll(g, n, i - 1, kind, d1);
      var c := g[n][i - 1];
      ChildOf(g, n, i - 1);
      SameWithin(d1, d2, n.below, c.Nodes(), p.finished);
      RunLocal(g, c, kind, d1 + p.finished, d2 + p.finished);
    }
  }

  /** Two sets that agree within `s`, both extended by `extra`, agree within any part of `s`. */
  lemma SameWithin(d1: set<Automation>, d2: set<Automation>, s: set<Automation>, t: set<Automation>, extra: set<Automation>)
    requires d1 * s == d2 * s && t <= s
    ensures (d1 + extra) * t == (d2 + extra) * t
  {
    forall x | x in t
      ensures x in d1 <==> x in d2
    {
      assert x in d1 * s <==> x in d2 * s;
    }
  }

  /** Once the first `j` dependencies have failed, the rest of the list is not run. */
  lemma {:induction false} RunAllPrefixFail(g: Graph, n: Automation, j: nat, k: nat, kind: ContextType,
                                            done: set<Automation>)
    requires Closed(g) && n in g && j <= k <= |g[n]|
    requires RunAll(g, n, j, kind, done).outcome.Fail?
    decreases k
    ensures RunAll(g, n, k, kind, done) == RunAll(g, n, j, kind, done)
  {
    if j < k {
      RunAllPrefixFail(g, n, j, k - 1, kind, done);
    }
  }
}
