# A verified model of write-a-react's renderer

write-a-react builds a small React look-alike in stages. Each stage is a
self-contained `AReact.jsx`. This project models the stages that make up its
core and proves properties of them:

- **Elements.** `createElement` in two forms. The first is areact03's, which
  does not flatten its children and wraps the whole argument list into text
  elements. The second is areact04's and areact06's: a one-level `flat()`,
  with each non-object child wrapped as a `HostText` element.
- **Fiber traversal.** `getNextFiber`, the same in all three stages.
  Fibers live in an arena (`seq<Fiber>`) and refer to each other by index.
  `child` and `sibling` point to later fibers and `return` to earlier ones.
  The traversal is proved to be a depth-first walk.
- **areact03.** `performUnitOfWork` makes a fiber's host node, copies its
  props, appends the node to the node of `return`, and links one fiber per
  child. `workloop` runs units of work.
- **areact04.** As areact03, plus function components. A component's
  result becomes its `children`. A host node is appended to the node of the
  nearest ancestor that owns one.
- **areact06.** Reconciliation against the previous render (`alternate`),
  with PLACEMENT, UPDATE and DELETION tags and a deletions list. Also the
  commit phase (`commitWork`, `commitDeletion`, `commitRoot`), `updateDom`'s
  four passes, and the hooks `useState` and `useReducer`, whose setter
  queues an action and schedules a new render from the root.
- **areact07.** `setStyleByObject` writes a style object onto an element's
  `style`, adding `px` to numbers except under the unitless keys.

The host document is a value, `Dom = seq<HostNode>`. Each node holds its
kind, properties, listeners, parent and child list. `appendChild`,
`removeChild`, `createElement` and `createTextNode` are functions on it.
Each renderer is a class whose fields are the fiber arena, the host tree,
the hook records, the deletions list and the cursors (`workInProgress`,
`current`, `currentHookFiber`, `currentHookIndex`). Its methods update
those fields as the source's functions update the module's variables and
objects. Every method is proved against a specification function (such as
`Perform`, `Loop`, `Run`, `Committed` or `Requeue`). The lemmas next to it
state what the source promises about that function.

A thrown JavaScript error is an outcome in the model, not a precondition.
Examples are reading `children` of a component that returned `null`, a
parent climb that runs off the root, and `updateDom(null, ...)`. The
renderers report it as `ok == false` and leave the cursor on the failing
fiber; pure functions return `None`. Integers are unbounded, and `Num`
holds an `int`.

The model follows the code where it differs from what React does:

- In areact06 a child whose type changed gets a new PLACEMENT fiber, but
  the old fiber at that position is not deleted. Only an old fiber facing a
  missing or falsy child is deleted.
- A falsy child ends the new sibling chain. Fibers made for later children
  hang under the parent, but `child`/`sibling` links cannot reach them.
- `commitWork` on a deleted fiber goes on into that fiber's old `child`
  and `sibling`, committing them again with the tags they kept.
- `onClick` and `onclick` name the same event. Removing one of the two
  unbinds the listener the other still asks for.
- areact03's `createElement` gives every primitive child a text element
  that holds the whole argument list.

## Model

| member | source | states |
|---|---|---|
| Elements.CreateTextElement | areact06/AReact.jsx:3-11 | a `HostText` element whose props are exactly `nodeValue` (the text) and an empty `children` array |
| Elements.Flat | areact06/AReact.jsx:18 | one level of `flat()`: every non-array argument survives, and every result entry is an argument or an item of an array argument |
| Elements.WrapText | areact06/AReact.jsx:19 | the result is always an object; objects pass unchanged and anything else becomes a text element of itself |
| Elements.CreateElement | areact06/AReact.jsx:13-23 | type kept; props are the given ones plus `children`; `children` is the flattened argument list, position by position, with non-objects wrapped as text elements (areact04/AReact.jsx:17-27 is the same) |
| Elements.CreateElementUnflattened | areact03/AReact.jsx:17-27 | no flattening; a non-object child becomes a text element of the whole argument list, and objects are kept |
| Elements.FlatRemovesArrays | areact06/AReact.jsx:18 | when arrays nest at most once, no array is left after `flat()` |
| Elements.CreateElementChildrenAreFlat | areact06/AReact.jsx:18-20 | every child `createElement` produces is an object and not an array, unless arrays nest twice |
| Elements.FlatWithoutArrays | areact06/AReact.jsx:18 | `flat()` is the identity on a list without arrays |
| Elements.ConstructorsAgreeOnObjects | areact03/AReact.jsx:17-27 | the areact03 and areact06 constructors agree when every argument is a non-array object |
| Elements.UnflattenedTextCarriesWholeList | areact03/AReact.jsx:22-24 | `createElement("p", {}, "a", "b")` in areact03 gives two text elements that both hold `["a", "b"]` |
| Keys.ToLower | areact06/AReact.jsx:80 | `toLowerCase` keeps the length and lowers each character |
| Keys.IsEvent | areact06/AReact.jsx:29 | a key is an event key exactly when it starts with `on` |
| Keys.IsProperty | areact06/AReact.jsx:36 | every key is exactly one of `children`, an event key or a property |
| Keys.IsCopiedProp | areact04/AReact.jsx:34 | areact04 copies every key but `children`: what areact06 calls a property and what it calls an event alike |
| Keys.IsGone | areact06/AReact.jsx:38 | a key the new props lack; such a key is neither new nor changed, and a key of the old props that is gone is only there |
| Keys.IsNew | areact06/AReact.jsx:39 | a key only the new props have; such a key is not changed |
| Keys.IsChanged | areact06/AReact.jsx:40-41 | a key in both maps whose values differ, so the maps differ; a key in both that is not changed holds equal values |
| Keys.EventName | areact06/AReact.jsx:80 | the event name of an `on…` key is the key lowered, without its first two characters |
| Keys.KeyClassesPartition | areact06/AReact.jsx:38-41 | every key of either map is gone, new, changed or kept, and the first three exclude each other |
| Keys.EventNamesCollide | areact06/AReact.jsx:111 | `onClick` and `onclick` both name `click` |
| Host.AppendChildShape | areact06/AReact.jsx:145 | `appendChild` detaches the node from its old parent, then adds it last under the new one; nothing else changes |
| Host.AppendChildConsistent | areact06/AReact.jsx:145 | `appendChild` keeps parent and child links consistent, makes the node the last child of the parent and removes it from every other child list |
| Host.DetachConsistent | areact06/AReact.jsx:145 | detaching leaves a consistent tree in which the node has no parent and is nobody's child, and other lists are unchanged |
| Host.RemoveChildConsistent | areact06/AReact.jsx:119 | `removeChild` keeps links consistent and leaves the node parentless and in no child list |
| Host.RetouchConsistent | areact06/AReact.jsx:100 | writing properties or listeners on a node keeps the tree consistent |
| Host.CreateNode | areact06/AReact.jsx:249-252 | `createElement`/`createTextNode` adds one fresh node of the kind, with the next id, and keeps every other node |
| Host.CreateNodeConsistent | areact06/AReact.jsx:249-252 | a new node has no links, so creating one keeps the tree consistent |
| Hooks.ReplayQueue | areact06/AReact.jsx:315-318 | the `forEach` over queued actions computes `Replay` of the old state |
| Hooks.Step | areact06/AReact.jsx:316 | a function action is applied to the state; any other value replaces it whatever it was |
| Hooks.Replay | areact06/AReact.jsx:315-318 | an empty queue keeps the state, and a queue ending in a replacing value ends in that value |
| Hooks.ReplayConcat | areact06/AReact.jsx:315-318 | replaying two queues in turn is replaying their concatenation |
| Hooks.ReplaceResets | areact06/AReact.jsx:317 | a value action discards everything queued before it |
| Hooks.NextHook | areact06/AReact.jsx:306-318 | a new hook has an empty queue; without an old hook it holds the initial state and no dispatch, otherwise the old state with the old queue replayed and the old dispatch |
| Hooks.BuildHook | areact06/AReact.jsx:308-318 | the hook object `useState` builds is `NextHook` of the old hook |
| Hooks.FreshSetterEveryRender | areact06/AReact.jsx:312-336 | `dispatch` is never set, so every render hands out a setter bound to its own new hook |
| Hooks.Enqueue | areact06/AReact.jsx:324 | `setState` appends the action to its hook's queue and changes nothing else |
| Hooks.EnqueueKeepsState | areact06/AReact.jsx:323-324 | enqueueing leaves the state alone; the next render's hook has the action applied after the earlier ones |
| Hooks.ReducerQueue | areact06/AReact.jsx:347-349 | each `dispatch(action)` queues `state => reducer(state, action)` |
| Hooks.ReplayReducerQueue | areact06/AReact.jsx:344-352 | replaying dispatched actions folds the reducer over them in order |
| Hooks.CounterScenario | areact05/jsx.test.jsx:178-205 | `useState(100)`, then `c => c + 1`, then `102`, gives 100, 101, 102 on successive renders |
| Hooks.ReducerScenario | areact05/jsx.test.jsx:237-247 | two `add` dispatches take 100 to 102, and a `sub` gives 101 |
| Fibers.KindOfText | areact06/AReact.jsx:249-252 | a text node exactly for `HostText`, otherwise an element of the tag's name |
| Fibers.GetNextFiber | areact06/AReact.jsx:49-68 | the `while` loop over `return` links computes `NextFiber` |
| Fibers.NextFiber | areact06/AReact.jsx:49-68 | the next unit of work is a fiber of the arena or `null` |
| Fibers.ClimbFinds | areact06/AReact.jsx:61-67 | the climb returns the sibling of the first ancestor that has one, and `null` exactly when none has |
| Fibers.NextFiberChoice | areact06/AReact.jsx:57-67 | the child if there is one; otherwise the sibling of the nearest fiber on the way up that has one; otherwise `null` |
| Fibers.NextFiberInTree | areact06/AReact.jsx:49-68 | within a subtree, each step goes to the next fiber in depth-first order, and the last one continues with the climb from the subtree's root |
| Fibers.NextFiberInForest | areact06/AReact.jsx:49-68 | the same across a fiber and its later siblings |
| Fibers.WalkIsPreorder | areact06/AReact.jsx:262-265 | from a root, the cursor visits the whole tree in depth-first order, each fiber once, and then becomes `null` |
| Fibers.WalkShift | areact06/AReact.jsx:263-264 | one more loop turn is one more `getNextFiber` |
| Fibers.NearestHostFinds | areact06/AReact.jsx:132-135 | the host-parent climb finds the first ancestor that owns a node, and fails only when none does |
| Fibers.NearestHost | areact06/AReact.jsx:132-135 | the climb's result, when it has one, owns a node |
| Fibers.FindHostParent | areact04/AReact.jsx:92-95 | the `while (!domParentFiber.stateNode)` loop computes `NearestHost` |
| Fibers.RenderRoots | areact06/AReact.jsx:284-291 | `render` appends two fibers and keeps the arena before them |
| Fibers.RenderRootsLinked | areact06/AReact.jsx:284-291 | the root and its `current` keep the arena linked |
| UpdateDom.PropsAfter | areact06/AReact.jsx:84-101 | new and changed props take the new value, gone props become `""`, and every other key is kept |
| UpdateDom.ListenersAfter | areact06/AReact.jsx:71-113 | every listener the fourth pass binds is present; a listener the first pass does not unbind stays; one it unbinds and the fourth pass does not bind again is gone; nothing else appears |
| UpdateDom.NodeAfter | areact06/AReact.jsx:70-114 | kind and tree links are untouched; new and changed properties hold the new value, gone ones hold ""; new and changed handlers are bound |
| UpdateDom.UnbindPass | areact06/AReact.jsx:71-82 | removes the listeners of gone or changed event keys |
| UpdateDom.ClearPass | areact06/AReact.jsx:84-90 | blanks the properties that are gone |
| UpdateDom.SetPass | areact06/AReact.jsx:92-101 | writes new or changed properties |
| UpdateDom.BindPass | areact06/AReact.jsx:103-113 | adds the listeners of new or changed event keys |
| UpdateDom.UpdateDom | areact06/AReact.jsx:70-114 | the four passes in order change only the one node, to `NodeAfter` |
| UpdateDom.UpdateDomReflects | areact06/AReact.jsx:70-114 | a node that shows the old props shows the new ones afterwards, with dropped props blanked, when no two event keys share an event name |
| UpdateDom.DropOnClickPasses | areact06/AReact.jsx:71-113 | dropping `onClick` while keeping `onclick` unbinds `click` and binds nothing |
| UpdateDom.ClickStillWanted | areact06/AReact.jsx:103-113 | the props that keep only `onclick` still ask for a `click` listener |
| UpdateDom.CollidingEventKeysLoseListener | areact06/AReact.jsx:70-114 | with `onClick` and `onclick` on one handler, dropping `onClick` leaves a node that no longer shows its props |
| UpdateDom.MountReflects | areact06/AReact.jsx:142 | `updateDom(node, {}, props)` on a fresh node shows `props` |
| UpdateDom.TouchesIffPropsDiffer | areact06/AReact.jsx:70-114 | some pass has work exactly when the two prop maps differ outside `children` |
| UpdateDom.UntouchedListeners | areact06/AReact.jsx:71-113 | with no work, the listener passes change nothing |
| UpdateDom.UntouchedProps | areact06/AReact.jsx:84-101 | with no work, the property passes change nothing |
| UpdateDom.UntouchedNodeUnchanged | areact06/AReact.jsx:70-114 | with no work, the node is left as it was |
| Reconcile.OldChain | areact06/AReact.jsx:169 | the previous render's children are fibers of the arena, chained by `sibling` |
| Reconcile.Created | areact06/AReact.jsx:184-205 | a new fiber returns to the parent and has no child, sibling or hooks |
| Reconcile.ReconcileStep | areact06/AReact.jsx:176-222 | one iteration adds a fiber exactly for a truthy child, and that fiber becomes `prevSibling` |
| Reconcile.ReconcileAt | areact06/AReact.jsx:176-222 | the loop body computes `ReconcileStep` |
| Reconcile.ReconcileLoop | areact06/AReact.jsx:175-225 | the `while` loop computes the closed form `Partial` after `Rounds` iterations |
| Reconcile.ChildList | areact06/AReact.jsx:175-176 | the loop walks an array's items or a string's characters; reading the length of `null` or `undefined` throws; any other value has no length and no indices |
| Reconcile.ChildrenOf | areact06/AReact.jsx:175 | reading `props.children` fails exactly when it is missing, `null` or `undefined`; an array gives its items |
| Reconcile.Partial | areact06/AReact.jsx:175-222 | after `k` iterations the arena has grown by one fiber per truthy child visited |
| Reconcile.Reconciled | areact06/AReact.jsx:164-226 | `reconcileChildren` keeps the arena linked and only adds fibers |
| Reconcile.MadeAllFalsy | areact06/AReact.jsx:182 | no fiber is made when every child is falsy |
| Reconcile.DeletedAllFalsy | areact06/AReact.jsx:206-210 | when every child is falsy, every old fiber visited is deleted, in chain order |
| Reconcile.ReconciledEmpty | areact06/AReact.jsx:175-222 | an empty list of children makes no fiber and deletes every child of the previous render |
| Reconcile.ReconcileChildren | areact06/AReact.jsx:164-226 | `reconcileChildren` computes `Reconciled`, the loop over the old chain |
| Reconcile.PartialStep | areact06/AReact.jsx:175-225 | the loop body takes the state after `k` iterations to the state after `k + 1` |
| Reconcile.PartialLinked | areact06/AReact.jsx:182-222 | the loop keeps the arena linked |
| Reconcile.Lead | areact06/AReact.jsx:216-222 | the leading truthy children: all truthy, and followed by a falsy one or by the end |
| Reconcile.LeadChained | areact06/AReact.jsx:216-222 | the fibers of the leading children are chained by `sibling` in order |
| Reconcile.PartialFirstChild | areact06/AReact.jsx:216-217 | the parent's `child` is the first child's fiber, or `null` if that child is falsy |
| Reconcile.PartialChildChain | areact06/AReact.jsx:176-222 | after the loop, the parent's child chain is exactly the fibers of the leading truthy children, in order |
| Reconcile.DeletedIff | areact06/AReact.jsx:206-210 | an old fiber is pushed to the deletions exactly when its position holds a falsy or missing child |
| Reconcile.DeletedAreOld | areact06/AReact.jsx:206-210 | only old fibers are deleted |
| Reconcile.PartialOldFibers | areact06/AReact.jsx:206-217 | existing fibers change only in the parent's `child` and in the DELETION tag of a deleted old fiber; a type change does not delete |
| Reconcile.PartialNewFiber | areact06/AReact.jsx:180-205 | the fiber of a truthy child has its type and props and returns to the parent. It is an UPDATE of a same-type old fiber and takes over that fiber's node, or otherwise a PLACEMENT without a node |
| Reconcile.MadeIff | areact06/AReact.jsx:182-205 | each truthy position gets exactly one new fiber, in order |
| Reconcile.PartialFrame | areact06/AReact.jsx:184-205 | the loop writes no node and no hook list; a new fiber owns a node only if it took over its alternate's |
| Reconcile.DropMiddleSchedule | areact06/AReact.jsx:175-225 | for `[A, C]` over old `[A, B, C]`: three iterations, two new fibers, and only the old C deleted |
| Reconcile.DropMiddleNew | areact06/AReact.jsx:176-222 | in that scenario A is an UPDATE of the old A, and C is a PLACEMENT chained after it |
| Reconcile.DropMiddleOld | areact06/AReact.jsx:206-210 | in that scenario the old C is tagged DELETION and the old B keeps its tag |
| Reconcile.DropMiddleScenario | areact06/AReact.jsx:164-226 | the whole `[A, C]` over `[A, B, C]` outcome |
| Reconcile.ReconciledChildChain | areact06/AReact.jsx:164-226 | `reconcileChildren` keeps the arena linked, and the parent's chain is its leading truthy children |
| Commit.HostParent | areact06/AReact.jsx:130-136 | the host parent, when found, owns a node |
| Commit.HostBelow | areact06/AReact.jsx:116-123 | the fiber `commitDeletion` removes, when found, owns a node |
| Commit.Effect | areact06/AReact.jsx:126-150 | an effect keeps the number of host nodes |
| Commit.CommitAll | areact06/AReact.jsx:152-153 | committing a list of fibers keeps the number of host nodes |
| Commit.CommitAllConcat | areact06/AReact.jsx:156-158 | committing two lists in turn is committing their concatenation, stopping at a failure |
| Commit.CommitDeletion | areact06/AReact.jsx:116-123 | the recursion down `child` computes `Removal` |
| Commit.Removal | areact06/AReact.jsx:116-123 | `commitDeletion` crashes exactly when no fiber below owns a node, and keeps the number of host nodes |
| Commit.CommitEffect | areact06/AReact.jsx:126-150 | the part of `commitWork` before its recursive calls computes `Effect` |
| Commit.CommitForest | areact06/AReact.jsx:152-153 | committing from a fiber is its effect, then the forest under its child, then the forest at its sibling |
| Commit.CommitWork | areact06/AReact.jsx:125-154 | `commitWork(x)` commits the trees under `x` and its later siblings in depth-first order |
| Commit.DeletionOrder | areact06/AReact.jsx:157 | the deletions' forests are fibers of the arena |
| Commit.CommitRoot | areact06/AReact.jsx:156-158 | each deleted fiber's forest in push order, then the forest under the new root's child |
| Commit.DeletionRecommitsSibling | areact06/AReact.jsx:152-153 | a deleted fiber's forest runs on into its old sibling's forest |
| Commit.RemovalEffect | areact06/AReact.jsx:116-123 | the node found below the fiber leaves the parent's list when the parent lists it; nothing changes otherwise; the search crashes only on a missing child |
| Commit.PlacementEffect | areact06/AReact.jsx:138-145 | a PLACEMENT writes its props and listeners onto its node and appends it last under the host parent, keeping the tree consistent |
| Commit.AppendKeepsNode | areact06/AReact.jsx:145 | `appendChild` changes links only |
| Commit.ComponentUpdateFails | areact06/AReact.jsx:146-147 | an UPDATE on a component fiber fails exactly when its props changed outside `children`, and otherwise changes nothing |
| Commit.EffectConsistent | areact06/AReact.jsx:126-150 | each effect keeps the host tree consistent |
| Commit.CommitAllConsistent | areact06/AReact.jsx:156-158 | the commit phase keeps the host tree consistent however far it gets |
| Mount.CopiedOf | areact03/AReact.jsx:69-73 | the props filtered by `isProperty`, with their values |
| Mount.CopyProps | areact03/AReact.jsx:69-73 | the copy loop puts every prop but `children` on the node, over what it had |
| Mount.CopiedProps | areact03/AReact.jsx:69-73 | after the copy the node holds each prop but `children` and keeps every other key |
| Mount.Linkable | areact03/AReact.jsx:83-98 | how many children are linked before a `null` or `undefined` one throws |
| Mount.KidsStep | areact03/AReact.jsx:91-97 | each child links as the parent's `child` (first) or as the previous one's `sibling` |
| Mount.LinkChildren | areact03/AReact.jsx:83-98 | the `forEach` completes exactly when no child is nullish, and links the children up to the first nullish one |
| Mount.KidsLinked | areact03/AReact.jsx:83-98 | linking keeps the arena linked |
| Mount.KidsChain | areact03/AReact.jsx:83-98 | the linked fibers are the parent's child chain in order, each with its child's type and props, returning to the parent, without a node |
| Mount.KidsFields | areact03/AReact.jsx:84-89 | each new fiber carries its child's type and props, returns to the parent and has no node |
| Mount.KidsFrame | areact03/AReact.jsx:83-98 | other fibers are unchanged, and the parent gains only its `child` |
| Mount.MakeNodeNew | areact03/AReact.jsx:63-74 | a fiber without a node gets a new last node of its kind, holding exactly the props but `children`; this fails exactly for a fiber without a tag type |
| Mount.MakeNodeKeeps | areact03/AReact.jsx:63 | a fiber with a node is left alone |
| Mount.MakeNodeValid | areact03/AReact.jsx:63-74 | making a node keeps the data valid and touches no other fiber |
| Mount.MakeNode | areact04/AReact.jsx:76-86 | the fibers keep their number and nodes are only added; completes exactly for a fiber with a node or with a tag type, and a host fiber ends up owning a node |
| Mount.Attach | areact04/AReact.jsx:88-98 | completes exactly when there is a parent owning a node; the fibers and the number of nodes are unchanged |
| Mount.AttachAppends | areact03/AReact.jsx:77-79 | the fiber's node becomes the last child of the parent's node, and the tree stays consistent |
| Mount.MakeAttachFresh | areact04/AReact.jsx:76-98 | a host fiber's new node holds its kind and props and becomes the last child of the parent fiber's node; the tree stays consistent |
| Mount.AttachValid | areact03/AReact.jsx:77-79 | attaching keeps the data valid and the fibers unchanged |
| Mount.LinkAll | areact03/AReact.jsx:83-101 | linking then `getNextFiber` keeps the data valid and the host tree unchanged |
| Mount.LinkAllChildren | areact03/AReact.jsx:83-101 | completes exactly when `children` is an array without nullish entries; then the children form the fiber's chain and the next unit is the first child |
| Mount.MakeFiberNode | areact03/AReact.jsx:63-74 | the `if (!fiber.stateNode)` block computes `MakeNode` |
| Mount.LinkFiberChildren | areact03/AReact.jsx:83-101 | the `forEach` and the return compute `LinkAll` |
| Renderer03.Perform | areact03/AReact.jsx:61-102 | a unit of work keeps the data valid and returns a fiber of the arena or `null` |
| Renderer03.Stages | areact03/AReact.jsx:61-101 | a unit of work is: make the node, append it under `return`, then link the children |
| Renderer03.PerformOk | areact03/AReact.jsx:61-102 | completes exactly when the fiber can have a node, its `return` owns one, and `children` is an array of non-nullish entries |
| Renderer03.PerformChildren | areact03/AReact.jsx:83-101 | a completed unit makes the children the fiber's chain in order and moves to the first |
| Renderer03.PerformMountsUnderReturn | areact03/AReact.jsx:63-79 | a new node of the fiber's kind holding its props becomes the last child of the node of `return`; the tree stays consistent |
| Renderer03.PerformRootKeepsTree | areact03/AReact.jsx:63-79 | the root, which already owns the container, leaves the host tree alone |
| Renderer03.Loop | areact03/AReact.jsx:104-108 | the loop keeps the data valid |
| Renderer03.Turn | areact03/AReact.jsx:105-107 | one turn keeps the data valid |
| Renderer03.Renderer03.constructor | areact03/AReact.jsx:113-118 | a root with no fibers on the container |
| Renderer03.Renderer03.Render | areact03/AReact.jsx:120-134 | appends the root and `current`, and the root becomes the next unit of work |
| Renderer03.Renderer03.PerformUnitOfWork | areact03/AReact.jsx:61-102 | the new state and cursor are those `Perform` gives |
| Renderer03.Renderer03.Advance | areact03/AReact.jsx:105-107 | one turn stays on track towards `Loop`'s result |
| Renderer03.Renderer03.Workloop | areact03/AReact.jsx:104-108 | the new state and cursor are those `Loop` gives |
| Renderer04.CallComponentValid | areact04/AReact.jsx:71-73 | a component call changes only the fiber's props, setting `children` to `[result]` |
| Renderer04.CallComponent | areact04/AReact.jsx:71-73 | only the component fiber changes, and its `children` becomes `[result]` of calling the component with its props |
| Renderer04.NearestHostFrame | areact04/AReact.jsx:92-95 | changing a fiber below the climb does not change where the climb stops |
| Renderer04.Perform | areact04/AReact.jsx:61-122 | a unit of work keeps the data valid |
| Renderer04.HostStages | areact04/AReact.jsx:76-98 | a host unit is: make the node, append it under the nearest host, then link the children |
| Renderer04.PerformComponent | areact04/AReact.jsx:71-73 | a component unit completes exactly when its result is not nullish; the host tree is untouched; one child fiber is made from the result |
| Renderer04.PerformHostOk | areact04/AReact.jsx:76-121 | a host unit completes exactly when the fiber can have a node, the climb finds a host, and `children` is an array of non-nullish entries |
| Renderer04.PerformMountsUnderNearestHost | areact04/AReact.jsx:76-98 | the new node becomes the last child of the node of the nearest ancestor that owns one |
| Renderer04.PerformHostChildren | areact04/AReact.jsx:101-121 | a completed host unit makes the children the fiber's chain in order |
| Renderer04.AgreesWithAreact03 | areact04/AReact.jsx:61-122 | when `return` owns a node, areact04 does exactly what areact03 does |
| Renderer04.Loop | areact04/AReact.jsx:124-128 | the loop keeps the data valid |
| Renderer04.Turn | areact04/AReact.jsx:125-127 | one turn keeps the data valid |
| Renderer04.Renderer04.constructor | areact04/AReact.jsx:133-138 | a root with no fibers on the container |
| Renderer04.Renderer04.Render | areact04/AReact.jsx:140-154 | appends the root and `current`, and the root becomes the next unit of work |
| Renderer04.Renderer04.MountHost | areact04/AReact.jsx:76-98 | the host half of a unit: what is left is `LinkAll`, or the unit ends failed as it stands |
| Renderer04.Renderer04.PerformUnitOfWork | areact04/AReact.jsx:61-122 | the new state and cursor are those `Perform` gives |
| Renderer04.Renderer04.Advance | areact04/AReact.jsx:125-127 | one turn stays on track towards `Loop`'s result |
| Renderer04.Renderer04.Workloop | areact04/AReact.jsx:124-128 | the new state and cursor are those `Loop` gives |
| Renderer06.RenderHooks | areact06/AReact.jsx:305-339 | one hook per `useState` call |
| Renderer06.Prepare | areact06/AReact.jsx:230-254 | preparing a fiber adds no fibers |
| Renderer06.RenderHooksNoDispatch | areact06/AReact.jsx:312 | hooks built in a render carry no dispatch |
| Renderer06.PrepareValid | areact06/AReact.jsx:230-254 | preparing keeps the data valid and the deletions |
| Renderer06.ReconciledValid | areact06/AReact.jsx:256 | reconciling keeps the data valid and adds its deletions |
| Renderer06.ComponentRender | areact06/AReact.jsx:238-245 | a component render touches only its own fiber and appends one hook per `useState`, each built from the previous render's hook at that slot, with `[result]` as `children` |
| Renderer06.HostPrepare | areact06/AReact.jsx:246-254 | a host fiber gets a new node of its type exactly when it has none; otherwise nothing changes |
| Renderer06.Perform | areact06/AReact.jsx:228-260 | a unit of work keeps the data valid |
| Renderer06.PerformOutcome | areact06/AReact.jsx:228-260 | fails exactly for a host fiber whose `children` is missing, `null` or `undefined`; a completed unit moves to `getNextFiber` and only adds deletions |
| Renderer06.PerformReconciles | areact06/AReact.jsx:256 | a completed unit leaves the arena that reconciling the prepared fiber's children gives |
| Renderer06.PerformChildren | areact06/AReact.jsx:256 | the fiber's child chain is its new fibers, one per leading truthy child |
| Renderer06.PerformKeepsNodes | areact06/AReact.jsx:228-260 | existing fibers keep their nodes and hook lists through a unit |
| Renderer06.PerformEmptyChildren | areact06/AReact.jsx:175-210 | a host fiber whose `children` is a number, a boolean, an element or an object completes, makes no fiber and deletes every child of its previous render |
| Renderer06.Loop | areact06/AReact.jsx:263-265 | the loop keeps the data valid |
| Renderer06.Turn | areact06/AReact.jsx:264 | one turn keeps the data valid |
| Renderer06.RenderRootsValid | areact06/AReact.jsx:283-295 | `render` keeps the data valid |
| Renderer06.PushHook | areact06/AReact.jsx:338 | the hook joins the store and the fiber's `memorizedState` |
| Renderer06.PushHookValid | areact06/AReact.jsx:338 | pushing a hook keeps the data valid |
| Renderer06.OldHookStable | areact06/AReact.jsx:306-307 | rewriting the rendering fiber's hooks does not change what its alternate holds |
| Renderer06.Requeue | areact06/AReact.jsx:323-335 | the setter appends a root on the container with `current`'s props, pointing back to `current`, as `current.alternate`; no other fiber changes |
| Renderer06.RequeueValid | areact06/AReact.jsx:323-335 | the setter keeps the data valid |
| Renderer06.SetterQueues | areact06/AReact.jsx:306-335 | the next render sees the setter's action applied after the earlier ones |
| Renderer06.Run | areact06/AReact.jsx:262-271 | the loop and the commit keep the data valid |
| Renderer06.Committed | areact06/AReact.jsx:156-162 | on success the alternate becomes `current` with no alternate, the host tree is the deletions then the new tree committed, and no other fiber changes; on failure nothing changes |
| Renderer06.Renderer06.constructor | areact06/AReact.jsx:276-281 | a root with no fibers and no hooks on the container |
| Renderer06.Renderer06.Render | areact06/AReact.jsx:283-295 | appends the root and `current`, clears the deletions, and the root becomes the next unit of work |
| Renderer06.Renderer06.PreviousHook | areact06/AReact.jsx:306-307 | the old hook at the current slot of the alternate |
| Renderer06.Renderer06.UseState | areact06/AReact.jsx:305-342 | pushes `NextHook` of the old hook at the slot, advances the slot, and returns its state and a setter bound to it |
| Renderer06.Renderer06.RenderComponent | areact06/AReact.jsx:238-245 | the component branch computes `Prepare`, leaving the hook cursor after its last `useState` |
| Renderer06.Renderer06.PrepareUnit | areact06/AReact.jsx:230-254 | the first half of a unit computes `Prepare` |
| Renderer06.Renderer06.PerformUnitOfWork | areact06/AReact.jsx:228-260 | the new state and cursor are those `Perform` gives |
| Renderer06.Renderer06.SetState | areact06/AReact.jsx:323-335 | the new state is `Requeue`'s, and the new root is the next unit of work |
| Renderer06.Renderer06.UseReducer | areact06/AReact.jsx:344-352 | a `useState` slot whose dispatcher is its setter |
| Renderer06.Renderer06.Dispatch | areact06/AReact.jsx:347-349 | queues `state => reducer(state, action)` through the setter |
| Renderer06.Renderer06.CommitRoot | areact06/AReact.jsx:156-162 | the new state is `Committed`'s |
| Renderer06.Renderer06.Advance | areact06/AReact.jsx:263-264 | one turn stays on track towards `Loop`'s result |
| Renderer06.Renderer06.PerformAll | areact06/AReact.jsx:263-265 | the new state and cursor are those `Loop` gives |
| Renderer06.Renderer06.Workloop | areact06/AReact.jsx:262-271 | the new state and cursors are those `Run` gives: the loop, then `commitRoot` when `current` has an alternate |
| Style.Digits | areact07/utils.js:25 | a non-empty string of decimal digits |
| Style.Decimal | areact07/utils.js:25 | `${n}` is non-empty |
| Style.DigitsRoundTrip | areact07/utils.js:25 | reading back the digits of `n` gives `n` |
| Style.DecimalRoundTrip | areact07/utils.js:25 | reading back `${n}` gives `n` |
| Style.PxRoundTrip | areact07/utils.js:25 | reading back `${n}px` gives `n`, so different numbers give different lengths |
| Style.DecimalInjective | areact07/utils.js:25 | different integers are written differently |
| Style.NoIndexIsLength | areact07/utils.js:15 | no array index key is `length` |
| Style.IndexEntries | areact07/utils.js:15-16 | each index key of an array holds its item, and `length` is not among them |
| Style.OwnEntries | areact07/utils.js:11-16 | `Reflect.ownKeys` throws exactly on non-objects; a plain object gives its fields, and an array its indices and `length` |
| Style.StyledStep | areact07/utils.js:15-27 | visiting one more key writes its style value, if any |
| Style.StyleFor | areact07/utils.js:16-26 | the value written for one key is `StyleValue` |
| Style.StyleValue | areact07/utils.js:16-26 | a value is written exactly when it is a string or a number; what is written is a string or the number itself under a unitless key |
| Style.Styled | areact07/utils.js:15-27 | the keys after the `forEach` are the old keys plus the own keys holding a string or a number |
| Style.SetStyleByObject | areact07/utils.js:10-28 | writes nothing for a falsy or empty style object, throws for a non-object, and otherwise writes `Styled` |
| Style.ApplyEntries | areact07/utils.js:15-27 | the `forEach` writes `Styled` of the entries |
| Style.StyledCopiesStrings | areact07/utils.js:17-19 | a string value is copied |
| Style.StyledKeepsUnitless | areact07/utils.js:22-23 | a number under a unitless key is stored as the number |
| Style.StyledAddsPx | areact07/utils.js:24-25 | any other number becomes a string that reads back as `${n}px` |
| Style.StyledKeepsOthers | areact07/utils.js:15-27 | keys the object lacks, or whose value is neither string nor number, are untouched |
| Style.StyledIdempotent | areact07/utils.js:15-27 | applying a style object twice is applying it once |
| Style.WidthAndFontSize | areact08/jsx.test.jsx:352-368 | `{width: 100, fontSize: "22px"}` gives `width: 100px` and `fontSize: 22px` |
| Style.EmptyArrayWritesLength | areact07/utils.js:11-15 | an empty array is not empty to `Reflect.ownKeys` and writes `length: 0px` |

## Left out

- `requestIdleCallback` and `act` are not modelled. A renderer's `Workloop` runs units of work up to a `fuel` bound, which stands in for a component that re-renders without end. Idle-time slicing and promises are not modelled.
- `Renderer03.Loop`, `Renderer04.Loop`, `Renderer06.Loop`, `Renderer06.Run`: bounded by `fuel`; no lemma says that more fuel continues a run rather than changing it.
- The real DOM is not modelled. It is a value-level tree of nodes with kind, properties, listeners, parent and children. `HierarchyRequestError` (appending an ancestor into its descendant) and invalid tag names are not modelled; `appendChild` of a node onto itself is excluded by the lemmas' `p != c`.
- `parentStateNode.contains(node)` is modelled as direct-child membership, which is all `commitDeletion` can meet in these trees.
- Aliasing between fibers, hook objects and DOM nodes is modelled through ids into arenas, not through shared references.
- `Renderer04.CallComponentValid`: a fiber's props are a copy of its element's props, not the same object. In the source, `fiber.props.children = [fiber.type(fiber.props)]` (areact04/AReact.jsx:73, areact06/AReact.jsx:245) also writes into the element the fiber was made from (`props: child.props`, areact06/AReact.jsx:187 and 199), and the lemma does not state that write.
- `Renderer04.CallComponent`: the same; the write into the element object is not modelled.
- `Renderer06.Prepare`, `Renderer06.ComponentRender`: the same write is not modelled. A setter's re-render starts from the root's `current.props` (areact06/AReact.jsx:329), which still holds the mutated element, so in the source a component re-rendered by its own setter is called with `children` set to its previous output; the model calls it with the children its element was created with.
- `Keys.IsChanged`: values are compared structurally, where `!==` compares objects, arrays and elements by identity. A fresh object, array or element equal to the old one (`data={{a: 1}}` rendered again) counts as unchanged in the model and as changed in the source.
- `Commit.ComponentUpdateFails`: inherits that comparison, so it does not cover the crash the source has when such a fresh but equal prop reaches `updateDom(null, …)` of a component fiber.
- `UpdateDom.TouchesIffPropsDiffer`: inherits that comparison; the source also rewrites a property whose new value is a fresh but equal object.
- `Reconcile.ChildList`: an object's own `length` and index keys are not read, so an array-like object is walked as an empty list; a function passed as `children` is taken to have length 0, where its `length` is its number of parameters.
- `Commit.EffectConsistent`, `Commit.CommitAllConsistent`: they need the fibers' nodes to be pairwise distinct (`Apart`). The renderer's invariant `WorkValid` includes neither `Apart` nor a consistent host tree, so these lemmas are not connected to `Renderer06.Committed`.
- Numbers are integers. `NaN`, floating point and `-0` are left out. `toLowerCase` lowers ASCII letters only.
- The `in` operator sees own keys only; prototype keys and symbol keys do not exist in the model.
- A function component is a pure function of its props (areact04) or of its props and its hook states (areact06). In areact06 a component calls `useState` a fixed number of times, with fixed initial values, in one render. A body that calls hooks conditionally, or `setState` during render, is not modelled.
- A setter argument is an `Action`: `Apply(f)` for a function, `Replace(v)` for any other value. A `Function` value passed to a setter is treated as a replacing value, because the model cannot call it.
- `Renderer06.Committed`: when the commit crashes partway, the model keeps the host tree as it was before the commit instead of the half-written one.
- A truthy child that is not an element (a plain object) gets a fiber with no type and no props, which fails when its unit is performed. Its other fields are not read.
- `Reconcile.ReconcileChildren`: the `while` loop is `Reconcile.ReconcileLoop`. Finding the old chain is kept apart so that the loop is verified without the arena-wide link invariant.
- `Renderer06.Renderer06.Workloop` does not state where `currentHookFiber` and `currentHookIndex` end up.
- `Renderer03` and `Renderer04` are not given a second `render` over an existing tree; their `render` just appends new roots, as the source does.
- `current` is kept but never read in areact03 and areact04.
- `useEffect` and the later stages (areact07's renderer integration of `style`, areact08) are not part of this model. `setStyleByObject` is modelled on its own, onto an element's style map.
- `Style.SetStyleByObject`: the browser's `CSSStyleDeclaration` normalises and filters what is written (unknown properties, index keys, invalid values). The model stores every written key and value as given.
- `Style.OwnEntries`, `Style.SetStyleByObject`: a function passed as a style object is taken to have no own keys, where the browser reports `length` and `name`. An element value has `type` and `props` as its own keys.
- The order in which `Reflect.ownKeys` lists keys is not modelled. Each key is written once and keys are distinct, so the final style does not depend on it.
