/** Value-level view of an automation node: the tree obtained by unfolding its dependency
    lists. A deep copy is stated against this view. */
module Trees {
  import opened Callbacks

  datatype Option<T> = None | Some(value: T) {
    function UnwrapOr(default: T): T {
      match this
      case Some(v) => v
      case None => default
    }
  }

  datatype Tree = Tree(operation: Operation, complete: bool, running: bool, deps: seq<Tree>)

  /** The tree a deep copy with completion override `complete` produces from `t`: the same
      operations in the same shape, never running, and every `complete` overridden when an
      override is given. */
  function Copied(t: Tree, complete: Option<bool>): Tree
  {
    Tree(t.operation, complete.UnwrapOr(t.complete), false,
         seq(|t.deps|, i requires 0 <= i < |t.deps| => Copied(t.deps[i], complete)))
  }

  /** No node of `t` is running and, with an override, every node has that completion. */
  ghost predicate Settled(t: Tree, complete: Option<bool>)
  {
    !t.running &&
    (complete.Some? ==> t.complete == complete.value) &&
    forall d | d in t.deps :: Settled(d, complete)
  }

  /** `t` with its state flags erased: only operations and shape remain. */
  function Skeleton(t: Tree): Tree
  {
    Tree(t.operation, false, false, seq(|t.deps|, i requires 0 <= i < |t.deps| => Skeleton(t.deps[i])))
  }

  /** A deep copy leaves no node running, and an override reaches every level. */
  lemma {:induction false} CopiedIsSettled(t: Tree, complete: Option<bool>)
    ensures Settled(Copied(t, complete), complete)
  {
    var c := Copied(t, complete);
    forall d | d in c.deps
      ensures Settled(d, complete)
    {
      var i :| 0 <= i < |c.deps| && c.deps[i] == d;
      CopiedIsSettled(t.deps[i], complete);
    }
  }

  /** A deep copy keeps every operation in its place. */
  lemma {:induction false} CopiedKeepsSkeleton(t: Tree, complete: Option<bool>)
    ensures Skeleton(Copied(t, complete)) == Skeleton(t)
  {
    var c := Copied(t, complete);
    forall i | 0 <= i < |t.deps|
      ensures Skeleton(c.deps[i]) == Skeleton(t.deps[i])
    {
      CopiedKeepsSkeleton(t.deps[i], complete);
    }
    assert Skeleton(c).deps == Skeleton(t).deps;
  }

  /** Copying the copy with the same override changes nothing. */
  lemma {:induction false} CopiedIdempotent(t: Tree, complete: Option<bool>)
    ensures Copied(Copied(t, complete), complete) == Copied(t, complete)
  {
    var c := Copied(t, complete);
    forall i | 0 <= i < |t.deps|
      ensures Copied(c.deps[i], complete) == c.deps[i]
    {
      CopiedIdempotent(t.deps[i], complete);
    }
    assert Copied(c, complete).deps == c.deps;
  }
}
