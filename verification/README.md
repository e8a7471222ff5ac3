# Automation engine of auto-fastapi, modelled in Dafny

auto-fastapi provides `Automation` nodes: setup operations on an endpoints router, each
run after its prerequisites. An `Automation` wraps one operation on the router. It carries two flags, `complete` and `running`,
and holds a list of other automations it depends on. Calling `automate(router)` on a
node does this:

1. It does nothing if the node is already complete.
2. Otherwise it marks the node running.
3. It automates every dependency in list order.
4. It calls the node's own callback, which checks that the router has an accepted type.
5. It marks the node complete.

An exception at any point stops everything that follows. A node that has completed runs
again only after `clear()`. `copy` builds a new node over the same dependency list, a
copy of that list, or deep copies of the dependencies. `support` and `supports` build
nodes that put other nodes first.

The model has three modules:

- `Callbacks` (callbacks.dfy): the context an operation runs on, and the typed callback
  each node invokes. A context has a type tag and a log. Each invoked `Op` appends
  its id to the log (the no-op of a group node appends nothing), so the order in which operations run is observable. An operation
  may fail.
- `Trees` (trees.dfy): the value-level view of a node. A node becomes a tree of
  operations and flags. The module states what a deep copy produces and proves that
  result settled, skeleton-preserving and idempotent.
- `Automations` (automation.dfy): the engine.
  - A dependency list is a heap object of its own (`DepList`), because `copy` can share
    one between two nodes.
  - A node is a class with mutable `complete` and `running` flags.
  - Ghost bookkeeping (`rank`, `below`, `footprint`) keeps the dependency graph acyclic
    and gives the frames.
  - `automate` is an imperative method with the source's loop. It is proved against
    `Run`/`RunAll`, a reference semantics over a snapshot of the dependency lists. That
    semantics fixes four things:
    - which operations are invoked, and in what order;
    - what the log gains;
    - which nodes end complete or still running;
    - the outcome.

## Model

| member | source | states |
|---|---|---|
| Automations.Automation.constructor | auto_fastapi/automation.py:16-33 | The new node has the given operation and flags. Its callback is the one `create_callback` builds. Without a list it gets a fresh empty one, otherwise the given list itself. The graph below it is valid. |
| Callbacks.CreateCallback | auto_fastapi/automation.py:31-33 | The callback wraps the operation and accepts exactly the endpoints-router context type, whatever the operation does: the router never gets a type mismatch, and invoking an `Op` on it logs that operation's id. Any other type fails with a type mismatch and has no effect on the context. |
| Callbacks.Callback.Call | auto_fastapi/automation.py:61 | A call returns what `Invoke` says: a type mismatch first, then the operation's own failure or success. It appends to the context's log exactly what `Effect` says. |
| Automations.Automation.Support | auto_fastapi/automation.py:35-40 | The new node has this node inserted at the front of its list. The list is the one passed in, or a fresh one holding only this node. The new node reaches exactly what its list reaches (`below`, `footprint`), so it can itself be automated, copied or supported. The receiver stays valid. |
| Automations.Automation.Supports | auto_fastapi/automation.py:42-48 | The group node has a no-op operation and is neither complete nor running. Its fresh list holds exactly the given nodes, in order. It reaches exactly what those nodes reach, so a node built from it can be automated. |
| Automations.Automation.Automate | auto_fastapi/automation.py:50-64 | The outcome, the invoked nodes in order and the log's new entries are those of `Run` from the nodes complete on entry. Each reachable node ends complete exactly if it was complete or finished. It ends running exactly if it started and did not finish; every other node keeps its running flag. |
| Automations.Automation.AutomateDependencies | auto_fastapi/automation.py:57-59 | The loop over the dependencies yields the `RunAll` of all of them: the outcome, the calls, the log and every node's flags below this one. |
| Automations.Automation.AutomateNext | auto_fastapi/automation.py:58-59 | One loop pass, `automate` on the next dependency, extends the run of the earlier dependencies by one more step of `RunAll`. The log and flags follow, and the run stays within the nodes below. |
| Automations.RunFacts | auto_fastapi/automation.py:50-64 | Every run is sound: no node is invoked twice, a node is invoked only after all its dependencies completed, and only nodes it reaches are touched. A node that was not complete gets started. A passing run leaves it complete. A failing run leaves it incomplete, and the last call is the one that failed. |
| Automations.RunAllFacts | auto_fastapi/automation.py:57-59 | The loop over the first `i` dependencies is sound within the nodes below. If it passes, each of those dependencies is complete afterwards. |
| Automations.RunOnce | auto_fastapi/automation.py:52-59 | After a passing run, running again from the nodes it completed invokes nothing and changes nothing. |
| Automations.RunLocal | auto_fastapi/automation.py:52-59 | A run depends only on which of the nodes it reaches are complete. |
| Automations.RunAllPrefixFail | auto_fastapi/automation.py:58-59 | Once a dependency fails, the later dependencies are not automated: the loop's result is the failed prefix's result. |
| Automations.RunBounds | auto_fastapi/automation.py:52-64 | A run finishes only nodes it started. It starts only reachable nodes that were not complete. A passing run finishes every node it started. |
| Automations.EffectsAppend | auto_fastapi/automation.py:58-61 | The log entries of two consecutive runs are the entries of the first followed by those of the second. |
| Automations.Automation.Copy | auto_fastapi/automation.py:84-106 | The copy is a fresh valid node with the same operation. It is not running, and its completion is the override if one is given, else this node's. The shared, separate and deep list cases each hold. A shallow copy's view is this node's view with the new flags, and it reaches exactly what its list reaches (`below`, `footprint`), all within what this node reaches, so it can itself be automated, copied or supported. A deep copy's view is `Copied` of this node's view, every node and list in it is fresh, and it is `Unshared`. |
| Automations.Automation.CopyDeep | auto_fastapi/automation.py:96-106 | The deep branch: a fresh node over a fresh list of deep copies. Its view is `Copied` of the original view. Every node in it is fresh, and it is `Unshared`: no node sits at two positions of any list, at any depth. |
| Automations.Automation.CopyShallow | auto_fastapi/automation.py:91-106 | The shallow branches: the new node shares this node's list, or gets a fresh list with the same items. Its view is unchanged except for the new flags. It reaches exactly what its list reaches (`below`, `footprint`), within what this node reaches, so it can be automated. |
| Automations.Automation.CopyDependencies | auto_fastapi/automation.py:96-100 | The comprehension: one deep copy per dependency, in order, each an unshared copy of that dependency's view. Every node and list in them is fresh. Copies at different positions reach no node in common (`Apart`), even where the original list holds one node twice. |
| Automations.Automation.CopyNext | auto_fastapi/automation.py:97-100 | One comprehension step keeps the copies made so far as a prefix and appends the deep copy of the next dependency. Every node of the new copy is fresh, so it is apart from the earlier copies. |
| Automations.UnsharedDistinct | auto_fastapi/automation.py:96-100 | In an unshared node, no list holds the same node twice. So a deep copy of a list holding one node at two positions holds two different copies. |
| Automations.Automation.Clear | auto_fastapi/automation.py:108-110 | The node becomes incomplete. Nothing else changes, its running flag included. |
| Trees.CopiedIsSettled | auto_fastapi/automation.py:96-105 | A deep copy has no running node. With an override, every node at every level has that completion. |
| Trees.CopiedKeepsSkeleton | auto_fastapi/automation.py:96-105 | A deep copy keeps every operation in its place in the tree. |
| Trees.CopiedIdempotent | auto_fastapi/automation.py:96-105 | Deep-copying a deep copy with the same override gives the same tree. |

## Left out

- `async_automate` (auto_fastapi/automation.py:66-82) is left out, because asynchronous execution is outside this model. It passes a single generator expression to `asyncio.gather` instead of one awaitable per dependency, so no dependency is awaited as a task of its own and the intended concurrent run of the dependencies does not happen.
- The rest of the package is not part of this model: auto.py, endpoints.py, base.py and server.py. Only the router's type tag is modelled.
- `Callback` comes from the `dataplace` library, which is not part of this model. It is modelled by what the engine relies on: a type check against the accepted types, then the operation.
- An operation is abstract. It has an id it writes to the context's log, and it succeeds or fails. What it really does to a router is not modelled. Whether an operation fails is fixed with the operation, so the model cannot express an operation that fails once and passes on a later `automate`.
- Exceptions are modelled as a `Fail` outcome returned up the chain. Nodes left running and incomplete by a failure stay that way, as in the source.
- Automations.Automation.Automate: the dependency graph is passed as a ghost snapshot `g` of the lists, so the statement of the result ranges over a fixed graph. The method changes only flags and the context, never the lists.
- Automations.Automation.Support: the source lets any list be passed in. The model requires that the list is not reachable from this node or from its own items. Otherwise the Python code would build a cyclic graph. On a cycle through incomplete nodes, `automate` recurses until Python raises `RecursionError`; a complete node on the cycle returns at once (auto_fastapi/automation.py:52-53) and cuts the recursion there. `copy(deep=True)` has no such guard and recurses without end on any cycle (auto_fastapi/automation.py:96-100).
- Automations.Automation.Support: a list passed in may already be held by other nodes, for example one shared by `copy(separate=False)`. Python then gives each of those nodes this node as its new first dependency. The model updates the list as Python does, but the other holders' ghost bookkeeping (`rank`, `below`, `footprint`) is fixed at their construction and cannot take in the new dependency. Those nodes are no longer `Valid` afterwards, so the model cannot automate or copy them, or use them as dependencies. Only the returned node and the receiver are promised valid.
- Automations.Automation.Supports: the source returns `partial(group.support, **kwargs)`. The model returns the group node, and applying the builder is that node's `Support`.
- Keyword arguments and default values are made explicit: `Option` stands for `None` in `complete` and in the list argument.
- Python's dynamic typing of `operation` and `callback` is not modelled. Both are fixed at construction, as the source never reassigns them.
