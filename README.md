# A verified model of the hull UI runtime

This project models the runtime of a small virtual-DOM UI framework in Dafny and proves
properties of it. The framework keeps two copies of that runtime: a newer one under
`packages/framework/src` and an older one under `src/runtime`.

The model covers:

- **Virtual nodes and their constructors** (`h`, `hString`, `hFragment`,
  `mapStringsToTextNodes`, in both copies). They are datatype values in `VDom` and `LegacyH`.
- **Array and object helpers.**
  - `withoutNullsOrUndefines`, `arraysDiff`, `_notNull`/`withoutNulls` and `objectsDiff`, as
    functions in `Arrays`, `LegacyArrays` and `Objects`.
  - The keyed list reconciler `arraysDiffSequence`. It is a method with its loops over the
    class `ArrayWithOriginalIndices`, whose fields it updates in place. It is proved to produce
    operations that, applied in order to the old array, give the new array.
- **Mounting and destroying trees** against an abstract host document (`Host`).
  - Host nodes are numbered. Each has a kind, a parent, an ordered child list, attributes, a
    class list, inline style and a set of registered listeners.
  - `Host.Document` is the document object that the runtime changes.
  - `mountDOM`, `destroyDOM` and their helpers are methods on it. Each is proved equal to a
    pure function (`MountDom.Mount`, `DestroyDom.Destroy`, …).
  - The lemmas of `MountFacts`, `PropsFacts` and `DestroyDom` state what those functions do
    to the document and to the tree. Among them: mounting and then destroying gives every
    node of the document back exactly as it was.
- **The `Dispatcher`.** Its table is the value `Registry.Table`, with transition functions.
  The class `Dispatching.Dispatcher` holds the table in fields and is proved to follow those
  functions. A dispatch returns the trace of the handler calls it makes.
- **The application shell `createApp`** (src/runtime/app.ts).
  - Every step is a pure function over a snapshot `AppShell.AppState`: state, current tree,
    parent, dispatcher table, unsubscribers and document.
  - The class `AppShell.App` keeps the same data in fields, and each of its methods is proved
    to follow one of those functions.
  - `AppFacts` proves how creation wires the reducers, what an emitted command does, what
    mounting shows and that unmounting silences every reducer.

Reducers and `view` are pure functions passed in. Handlers are opaque identities, compared
as `===` compares functions.

Two places where the code does less than its comments and tests ask, which the model follows:

- The comment at packages/framework/src/runtime/dispatcher.ts:43-44 aims to make repeated
  unregistration harmless, but only a duplicate subscription gets the empty closure. A second
  call of a real unsubscribe finds nothing (`indexOf` gives -1), and `splice(-1, 1)` then
  drops the last handler of the list. `Registry.UnsubscribeTwice` proves exactly that.
- src/runtime/destroy-dom.test.ts:21 expects `el` to be cleared, but the older `destroyDOM`
  never deletes it (see Findings).

## Model

| member | source | states |
|---|---|---|
| VDom.HString | packages/framework/src/runtime/h.ts:66-71 | `hString(text)` is an unlinked text node whose value is `text` |
| VDom.MapStringsToTextNodes | packages/framework/src/runtime/h.ts:73-77 | same length; each string becomes a text node at its position; nodes, `null` and `undefined` pass through unchanged |
| VDom.H | packages/framework/src/runtime/h.ts:53-64 | `h` returns an element with the given tag and props (defaults: no props, no children) and no `el` or `listeners` |
| VDom.HFragment | packages/framework/src/runtime/h.ts:79-84 | `hFragment` returns a fragment with no `el` |
| VDom.NormalizedChildren | packages/framework/src/runtime/h.ts:63 | mapping strings and then dropping missing entries equals the reference list `ChildNodes` (one node per present input, in order) |
| VDom.HChildren | packages/framework/src/runtime/h.ts:53-64 | `h`'s children are exactly the present inputs, in order, with strings as text nodes; `h(tag)` has empty props and no children |
| VDom.HFragmentChildren | packages/framework/src/runtime/h.ts:79-84 | `hFragment`'s children are exactly the present inputs, in order, with strings as text nodes |
| VDom.ChildNodesCount | packages/framework/src/runtime/h.ts:63 | the children number exactly the present inputs |
| VDom.ChildNodesConcat | packages/framework/src/runtime/h.ts:63 | the children of concatenated inputs are the concatenated children: nothing is reordered |
| VDom.ChildNodesUnlinked | packages/framework/src/runtime/h.ts:58-63 | built from unlinked nodes and strings, every child carries no host link |
| LegacyH.H | src/runtime/h.ts:40-47 | the older `h` keeps tag and props and carries no link |
| LegacyH.HFragment | src/runtime/h.ts:60-65 | the older `hFragment` gives an unlinked fragment |
| LegacyH.LegacyAgrees | src/runtime/h.ts:40-65 | the older `h` and `hFragment` build the same trees as the newer ones on every input |
| LegacyH.LegacyHChildren | src/runtime/h.ts:40-65 | the older constructors' children are the present inputs, in order, strings as text nodes |
| Arrays.WithoutNullsOrUndefines | packages/framework/src/runtime/arrays.ts:4-8 | the result keeps only present values: each comes from the input and each present input survives |
| Arrays.WithoutNullsOrUndefinesIsFilter | packages/framework/src/runtime/arrays.ts:7 | the result is exactly `filter` with the predicate "neither null nor undefined" |
| Arrays.WithoutNullsOrUndefinesKeepsPresent | packages/framework/src/runtime/arrays.ts:7 | the result keeps the input order and every occurrence of every present value, and nothing else |
| LegacyArrays.NotNull | src/runtime/arrays.ts:4-6 | `_notNull` holds exactly for present values: the loose `!= null` rejects `undefined` as well as `null` |
| LegacyArrays.WithoutNulls | src/runtime/arrays.ts:8-10 | the result is no longer than the input |
| LegacyArrays.WithoutNullsAgrees | src/runtime/arrays.ts:4-10 | because `!= null` is loose, `withoutNulls` drops `undefined` too and equals `withoutNullsOrUndefines` on every input |
| LegacyArrays.WithoutNullsLength | src/runtime/arrays.ts:8-10 | the result length is the input length minus the `null` and `undefined` entries |
| Arrays.ArraysDiff | packages/framework/src/runtime/arrays.ts:23-34 | `added` holds exactly the entries of `b` not in `a`; `removed` holds exactly the entries of `a` not in `b` |
| Arrays.ArraysDiffKeepsOccurrences | packages/framework/src/runtime/arrays.ts:27-28 | both lists keep their source array's order and every occurrence of each kept entry |
| Arrays.ArraysDiffSelf | packages/framework/src/runtime/arrays.ts:27-28 | a class list compared with itself gives two empty lists |
| Arrays.ArrayWithOriginalIndices.constructor | packages/framework/src/runtime/arrays.ts:145-149 | the working copy is the original array and slot `i` is marked with `i` |
| Arrays.ArrayWithOriginalIndices.GetOriginalIndex | packages/framework/src/runtime/arrays.ts:160-162 | returns the marker of the slot |
| Arrays.ArrayWithOriginalIndices.GetFromIndex | packages/framework/src/runtime/arrays.ts:164-169 | returns the first position at or after the start that holds the item, or -1 exactly when there is none |
| Arrays.ArrayWithOriginalIndices.AddItem | packages/framework/src/runtime/arrays.ts:171-181 | inserts the item at `index` and the marker -1 beside it; returns `add` |
| Arrays.ArrayWithOriginalIndices.Noop | packages/framework/src/runtime/arrays.ts:183-190 | changes nothing and reports the slot's item and marker |
| Arrays.ArrayWithOriginalIndices.RemoveItem | packages/framework/src/runtime/arrays.ts:192-204 | deletes the slot and its marker; returns `remove` with the removed item |
| Arrays.ArrayWithOriginalIndices.MoveItem | packages/framework/src/runtime/arrays.ts:206-227 | `from` is the first later position holding the item, so `from > index`; the item and its marker are carried from `from` to `index`; the operation reports the carried marker |
| Arrays.AllNoops | packages/framework/src/runtime/arrays.test.ts:36-45 | the list of noops with `originalIndex == index` at every position |
| Arrays.AllAdds | packages/framework/src/runtime/arrays.test.ts:158-168 | the list of adds at positions 0..n-1 |
| Arrays.MainInvInit | packages/framework/src/runtime/arrays.ts:67-68 | the loop invariant holds before the first index |
| Arrays.AddStep | packages/framework/src/runtime/arrays.ts:82-84 | an add at `idx` keeps the loop invariant one index further, both when there is no old item and, as at lines 106-107, when the new item occurs nowhere later |
| Arrays.NoopStep | packages/framework/src/runtime/arrays.ts:87-89 | a noop on equal items keeps the loop invariant one index further |
| Arrays.RemoveStep | packages/framework/src/runtime/arrays.ts:92-97 | removing an old item that the new array lacks keeps the invariant at the same index |
| Arrays.MoveStep | packages/framework/src/runtime/arrays.ts:101-103 | a move of the new item from a later position keeps the invariant one index further |
| Arrays.MainStep | packages/framework/src/runtime/arrays.ts:78-111 | one round of the loop keeps the invariant; either the index advances or the working array shrinks (the termination measure) |
| Arrays.MainPass | packages/framework/src/runtime/arrays.ts:77-112 | after the main loop, the working copy agrees with the new array on its length. The operations produce the working copy from the old array, each fits the two arrays, and no old position is reported twice |
| Arrays.MainInvDone | packages/framework/src/runtime/arrays.ts:77-112 | at the end of the main loop, the working copy starts with the whole new array and the reported old positions are distinct |
| Arrays.TailStep | packages/framework/src/runtime/arrays.ts:114-118 | a removal at `newArray.length` keeps the trailing-loop invariant |
| Arrays.TrailingRemovals | packages/framework/src/runtime/arrays.ts:114-118 | removes at index `newArray.length` until the working copy has the new length, keeping the operations' meaning; a copy already that long gets no operation |
| Arrays.TailDone | packages/framework/src/runtime/arrays.ts:114-118 | once a removal at the new length appears, only such removals follow |
| Arrays.ArraysDiffSequence | packages/framework/src/runtime/arrays.ts:60-122 | throws "the new array is empty!" exactly for an empty new array; otherwise the operations, applied in order to the old array, give the new array. Each operation fits the arrays (add, noop and move land where the new array has them; noop and move name the item's true old position; a removal inside the new length drops an item the new array lacks). No old position is reported twice. Trailing removals come last. Equal arrays without empty strings give all noops; an empty old array gives only adds |
| Arrays.ApplyOperationsSnoc | packages/framework/src/runtime/arrays.ts:36-46 | applying one more operation continues from the array the others produced |
| Objects.TypeOf | packages/framework/src/utils/objects.ts:8 | `typeof` answers "object" exactly for `null` and objects, "function" exactly for functions, "undefined" exactly for `undefined`; other values answer their own primitive name |
| Objects.IsObject | packages/framework/src/utils/objects.ts:7-9 | `isObject` holds exactly for objects |
| Objects.IsObjectIffPlainObject | packages/framework/src/utils/objects.ts:7-9 | `isObject` holds exactly for objects; `null` is excluded although its `typeof` is "object" |
| Objects.Keys | packages/framework/src/utils/objects.ts:16 | `Object.keys` lists the keys in entry order |
| Objects.Lookup | packages/framework/src/utils/objects.ts:27 | the value read is the one stored under the key |
| Objects.ObjectsDiff | packages/framework/src/utils/objects.ts:11-35 | throws "a is not an object" or "b is not an object" (checked in that order) unless both are objects. Otherwise: `added` holds exactly the keys only `b` has, `removed` the keys only `a` has, `updated` the shared keys whose values differ |
| Objects.ObjectsDiffKeepsKeyOrder | packages/framework/src/utils/objects.ts:16-28 | `added` follows `b`'s key order; `removed` and `updated` follow `a`'s |
| Objects.ObjectsDiffDisjoint | packages/framework/src/utils/objects.ts:16-28 | no key appears in two of the three lists |
| Objects.ObjectsDiffSelf | packages/framework/src/utils/objects.ts:16-28 | an object compared with itself gives three empty lists |
| Objects.ObjectsDiffNoDuplicates | packages/framework/src/utils/objects.ts:16-28 | with distinct keys in both objects, no list repeats a key |
| Registry.Empty | packages/framework/src/runtime/dispatcher.ts:28-30 | a new dispatcher knows no command and has no after-handler |
| Registry.Subscribe | packages/framework/src/runtime/dispatcher.ts:32-55 | the command becomes known. A handler already listed changes nothing and gets a do-nothing unsubscribe. A new one goes last and gets an unsubscribe that removes it. Other commands and the after-handlers are untouched (the same code as src/runtime/dispatcher.ts:19-41) |
| Registry.RegisterAfterHandler | packages/framework/src/runtime/dispatcher.ts:58-65 | appends the handler (duplicates allowed) and returns its remover; subscriptions unchanged (as src/runtime/dispatcher.ts:43-50) |
| Registry.Unsubscribe | packages/framework/src/runtime/dispatcher.ts:50-53 | a remover splices `indexOf(handler)` out of its own list only; no command is forgotten; the do-nothing closure changes nothing |
| Registry.Dispatch | packages/framework/src/runtime/dispatcher.ts:67-81 | throws "unknown application command: cmd" exactly when the command was never subscribed; otherwise calls every handler with the payload, in order, then every after-handler with no argument, in order (as src/runtime/dispatcher.ts:52-66) |
| Registry.CommandCalls | packages/framework/src/runtime/dispatcher.ts:74-76 | one call with the payload per handler, in order |
| Registry.AfterCalls | packages/framework/src/runtime/dispatcher.ts:78-80 | one argument-less call per after-handler, in order |
| Registry.Drop | packages/framework/src/runtime/dispatcher.ts:51-52 | `splice(indexOf(h), 1)` removes the first occurrence of a listed handler and, for an unlisted one, the last handler; an empty list stays empty |
| Registry.DropPresent | packages/framework/src/runtime/dispatcher.ts:51-52 | for a listed handler, the splice removes exactly its first occurrence |
| Registry.DropUnique | packages/framework/src/runtime/dispatcher.ts:51-52 | in a list without duplicates, the handler is gone and every other one stays, in order |
| Registry.DropAbsent | packages/framework/src/runtime/dispatcher.ts:51-52 | for an unlisted handler `indexOf` is -1 and `splice(-1, 1)` drops the last handler |
| Registry.SubscribeKeepsNoDuplicates | packages/framework/src/runtime/dispatcher.ts:42-47 | subscribing never lists a handler twice under one command |
| Registry.UnsubscribeKeepsNoDuplicates | packages/framework/src/runtime/dispatcher.ts:50-53 | unsubscribing keeps every list free of duplicates |
| Registry.SpliceKeepsDistinct | packages/framework/src/runtime/dispatcher.ts:52 | `splice(start, 1)` with any start keeps a list free of duplicates |
| Registry.RegisterKeepsNoDuplicates | packages/framework/src/runtime/dispatcher.ts:58-59 | registering an after-handler leaves the command lists free of duplicates |
| Registry.SubscribeTwice | packages/framework/src/runtime/dispatcher.ts:42-45 | subscribing the same handler again changes nothing and returns a do-nothing unsubscribe |
| Registry.SubscribeThenUnsubscribe | packages/framework/src/runtime/dispatcher.ts:36-53 | a fresh unsubscribe restores the command's list; the command stays known |
| Registry.UnsubscribeTwice | packages/framework/src/runtime/dispatcher.ts:50-53 | a second call of the same unsubscribe removes the command's last remaining handler |
| Registry.RegisterThenUnsubscribe | packages/framework/src/runtime/dispatcher.ts:58-65 | removing a just-registered after-handler restores the table |
| Registry.KnownCommandsStay | packages/framework/src/runtime/dispatcher.ts:36-38 | a command that can be dispatched still can after any subscribe, register or unsubscribe |
| Registry.UnsubscribedNotCalled | packages/framework/src/runtime/dispatcher.ts:68-80 | a handler subscribed and unsubscribed on a new command is not called; the after-handlers still are |
| Dispatching.Dispatcher.constructor | packages/framework/src/runtime/dispatcher.ts:28-30 | the object starts with the empty table |
| Dispatching.Dispatcher.Subscribe | packages/framework/src/runtime/dispatcher.ts:32-55 | the fields change as `Registry.Subscribe` says, and the returned closure is its unsubscriber |
| Dispatching.Dispatcher.RegisterAfterHandler | packages/framework/src/runtime/dispatcher.ts:58-65 | the fields change as `Registry.RegisterAfterHandler` says |
| Dispatching.Dispatcher.Unsubscribe | packages/framework/src/runtime/dispatcher.ts:50-53 | calling a returned closure changes the fields as `Registry.Unsubscribe` says |
| Dispatching.Dispatcher.Dispatch | packages/framework/src/runtime/dispatcher.ts:67-81 | the calls made are `Registry.Dispatch` of the current table |
| Host.CreateText | packages/framework/src/runtime/mount-dom.ts:22 | a new detached text node with the next identity; nothing else changes |
| Host.CreateElement | packages/framework/src/runtime/mount-dom.ts:29 | a new detached element with the next identity; nothing else changes |
| Host.Append | packages/framework/src/runtime/mount-dom.ts:25 | the child becomes the parent's last child and points to it; a detached child changes only these two nodes |
| Host.Remove | packages/framework/src/runtime/destroy-dom.ts:11 | the node leaves its parent's child list and has no parent; only those two nodes change |
| Host.AddListener | packages/framework/src/runtime/mount-dom.ts:79 | the pair joins the element's listeners |
| Host.RemoveListener | packages/framework/src/runtime/mount-dom.ts:87 | the pair leaves the element's listeners |
| Host.SetAttribute | packages/framework/src/runtime/mount-dom.ts:119 | the attribute takes the value; only attribute-like fields of that element change |
| Host.RemoveAttribute | packages/framework/src/runtime/mount-dom.ts:116 | the attribute is gone; only attribute-like fields of that element change |
| Host.AddTokens | packages/framework/src/runtime/mount-dom.ts:98 | the class list keeps its tokens, gains the new ones at the end and stays free of duplicates |
| Host.ClassListAdd | packages/framework/src/runtime/mount-dom.ts:98 | the element's class list becomes `AddTokens` of the old list |
| Host.SetClassName | packages/framework/src/runtime/mount-dom.ts:100 | the class list becomes that one name |
| Host.SetCssText | packages/framework/src/runtime/mount-dom.ts:106 | the inline style text becomes the string |
| Host.SetStyleProperty | packages/framework/src/runtime/mount-dom.ts:108 | the style property takes the value |
| Host.Document.CreateTextNode | packages/framework/src/runtime/mount-dom.ts:22 | the call changes the document as `CreateText` says and returns the new node |
| Host.Document.CreateElementNode | packages/framework/src/runtime/mount-dom.ts:29 | the call changes the document as `CreateElement` says and returns the new node |
| Host.Document.AppendChild | packages/framework/src/runtime/mount-dom.ts:37 | the call changes the document as `Append` says |
| Host.Document.RemoveNode | packages/framework/src/runtime/destroy-dom.ts:11 | the call changes the document as `Remove` says |
| Host.Document.AddEventListener | packages/framework/src/runtime/mount-dom.ts:79 | the call changes the document as `AddListener` says |
| Host.Document.RemoveEventListener | packages/framework/src/runtime/mount-dom.ts:87 | the call changes the document as `RemoveListener` says |
| Host.Document.SetAttr | packages/framework/src/runtime/mount-dom.ts:119 | the call changes the document as `SetAttribute` says |
| Host.Document.RemoveAttr | packages/framework/src/runtime/mount-dom.ts:116 | the call changes the document as `RemoveAttribute` says |
| Host.Document.AddClasses | packages/framework/src/runtime/mount-dom.ts:98 | the call changes the document as `ClassListAdd` says |
| Host.Document.AssignClassName | packages/framework/src/runtime/mount-dom.ts:100 | the call changes the document as `SetClassName` says |
| Host.Document.AssignCssText | packages/framework/src/runtime/mount-dom.ts:106 | the call changes the document as `SetCssText` says |
| Host.Document.AssignStyle | packages/framework/src/runtime/mount-dom.ts:108 | the call changes the document as `SetStyleProperty` says |
| MountDom.Get | packages/framework/src/runtime/mount-dom.ts:63 | a prop read is an entry of the props, or `undefined` when no entry has the key |
| MountDom.Assign | packages/framework/src/runtime/mount-dom.ts:80 | assigning a new key appends the entry; the record holds only the new entry and old ones |
| MountDom.Truthy | packages/framework/src/runtime/mount-dom.ts:64-104 | a prop value is falsy exactly when it is `null`, `undefined` or `""` |
| MountDom.IsNullish | packages/framework/src/runtime/mount-dom.ts:114 | `value == null` holds exactly for `null` and `undefined`, which are falsy |
| MountDom.Stringify | packages/framework/src/runtime/mount-dom.ts:119 | the string form a value takes: a string itself, a one-element array its element, an empty array `""`, `null` "null", `undefined` "undefined", a record "[object Object]" |
| MountDom.Attributes | packages/framework/src/runtime/mount-dom.ts:63 | the props without `on`: every other entry and nothing else |
| MountDom.OtherAttributes | packages/framework/src/runtime/mount-dom.ts:94 | the attributes without `class` and `style`: every other entry and nothing else |
| MountDom.HandlerEntries | packages/framework/src/runtime/mount-dom.ts:78 | the entries of a handler record; a value that is not one has none |
| MountDom.AssignTypes | packages/framework/src/runtime/mount-dom.ts:80 | after `record[type] = handler` the record names its old event types and `type`, and no others |
| MountDom.RecordTypes | packages/framework/src/runtime/mount-dom.ts:78-81 | the record built by `added[type] = handler` names exactly the event types listed |
| MountDom.RecordEntries | packages/framework/src/runtime/mount-dom.ts:78-81 | each entry of that record is one of the listed pairs |
| MountDom.Record | packages/framework/src/runtime/mount-dom.ts:77-82 | the record `addEventListeners` builds has at most one entry per listed pair, since a repeated type overwrites; its meaning is carried by MountDom.RecordTypes, MountDom.RecordEntries and PropsFacts.ListenerRecord |
| MountDom.WithListeners | packages/framework/src/runtime/mount-dom.ts:72-83 | `addEventListeners` registers every listed pair on the element, changes nothing else, and returns a record of exactly the listed event types, each with a listed handler |
| MountDom.AddListeners | packages/framework/src/runtime/mount-dom.ts:78-81 | the element gains every listed pair; nothing else changes |
| MountDom.WithoutListeners | packages/framework/src/runtime/mount-dom.ts:85-89 | the element loses every listed pair; nothing else changes |
| MountDom.WithClass | packages/framework/src/runtime/mount-dom.ts:96-102 | the class prop touches only the class list |
| MountDom.WithStyles | packages/framework/src/runtime/mount-dom.ts:108 | a style record touches only the style properties |
| MountDom.WithStyle | packages/framework/src/runtime/mount-dom.ts:104-110 | the style prop touches only the inline style |
| MountDom.WithOtherAttributes | packages/framework/src/runtime/mount-dom.ts:113-121 | the other attributes touch only the attribute map |
| MountDom.WithAttribute | packages/framework/src/runtime/mount-dom.ts:114-120 | one entry touches only the attribute map |
| MountDom.WithAttributes | packages/framework/src/runtime/mount-dom.ts:93-122 | `setAttributes` changes only attribute-like fields of the element |
| MountDom.WithProps | packages/framework/src/runtime/mount-dom.ts:62-68 | `addProps` changes only the element's attributes, classes, style and listeners, and keeps the document well formed |
| MountDom.Mount | packages/framework/src/runtime/mount-dom.ts:3-19 | mounting keeps the document well formed, keeps every node and its kind, and never lowers the next identity |
| MountDom.MountText | packages/framework/src/runtime/mount-dom.ts:21-26 | as `Mount`, for a text node |
| MountDom.MountElement | packages/framework/src/runtime/mount-dom.ts:28-38 | as `Mount`, for an element |
| MountDom.MountFragment | packages/framework/src/runtime/mount-dom.ts:40-44 | as `Mount`, for a fragment |
| MountDom.MountAll | packages/framework/src/runtime/mount-dom.ts:33 | as `Mount`; a full pass returns one mounted child per child |
| MountDom.MountAllStops | packages/framework/src/runtime/mount-dom.ts:33 | once a child throws, no later child is mounted |
| MountDom.MountDOM | packages/framework/src/runtime/mount-dom.ts:3-19 | the method changes the document and returns the tree as `Mount` says |
| MountDom.CreateTextNode | packages/framework/src/runtime/mount-dom.ts:21-26 | the method agrees with `MountText` |
| MountDom.CreateElementNode | packages/framework/src/runtime/mount-dom.ts:28-38 | the method agrees with `MountElement` |
| MountDom.CreateFragmentNode | packages/framework/src/runtime/mount-dom.ts:40-44 | the method agrees with `MountFragment` |
| MountDom.MountChildren | packages/framework/src/runtime/mount-dom.ts:33 | the `forEach` agrees with `MountAll` |
| MountDom.AddProps | packages/framework/src/runtime/mount-dom.ts:62-68 | the method agrees with `WithProps` |
| MountDom.AddEventListeners | packages/framework/src/runtime/mount-dom.ts:72-83 | the loop registers the entries and builds the same record as `WithListeners` |
| MountDom.RemoveEventListeners | packages/framework/src/runtime/mount-dom.ts:85-89 | the loop agrees with `WithoutListeners` |
| MountDom.SetAttributes | packages/framework/src/runtime/mount-dom.ts:93-122 | the method agrees with `WithAttributes` |
| MountDom.SetOtherAttributes | packages/framework/src/runtime/mount-dom.ts:113-121 | the loop agrees with `WithOtherAttributes` |
| MountDom.SetClass | packages/framework/src/runtime/mount-dom.ts:96-102 | the branch agrees with `WithClass` |
| MountDom.SetStyle | packages/framework/src/runtime/mount-dom.ts:104-110 | the branch agrees with `WithStyle` |
| MountFacts.MountThrows | packages/framework/src/runtime/mount-dom.ts:14-17 | mounting throws exactly when the tree holds a node of unknown type, always with the same message |
| MountFacts.MountAllThrows | packages/framework/src/runtime/mount-dom.ts:33 | the children throw exactly when one of them holds such a node |
| MountFacts.MountEffect | packages/framework/src/runtime/mount-dom.ts:3-19 | a mounted tree is linked under the parent to fresh, distinct host nodes; the parent gains exactly its top host nodes at the end; no other existing node changes |
| MountFacts.MountTextEffect | packages/framework/src/runtime/mount-dom.ts:21-26 | a text node always mounts, as `MountEffect` states |
| MountFacts.MountElementEffect | packages/framework/src/runtime/mount-dom.ts:28-38 | a mounted element satisfies what `MountEffect` states |
| MountFacts.MountFragmentEffect | packages/framework/src/runtime/mount-dom.ts:40-44 | a mounted fragment satisfies what `MountEffect` states |
| MountFacts.MountAllEffect | packages/framework/src/runtime/mount-dom.ts:33 | the children are mounted in order; their top host nodes follow one another under the parent |
| MountFacts.ChildStep | packages/framework/src/runtime/mount-dom.ts:33 | mounting one more child extends what the earlier ones placed |
| MountFacts.FreshElement | packages/framework/src/runtime/mount-dom.ts:29-31 | the created element, with its props, is a detached element without children; nothing else changes |
| MountFacts.ElementStep | packages/framework/src/runtime/mount-dom.ts:33-37 | appending the element after its children are mounted completes the mount: the parent gains it last, and its children are the children's top host nodes |
| MountFacts.AppendedFrame | packages/framework/src/runtime/mount-dom.ts:37 | appending the fresh element changes only the parent's child list, among the earlier nodes |
| MountFacts.FreshElementTree | packages/framework/src/runtime/mount-dom.ts:35 | the element links to its new host node, its subtree is linked below it, and no host node is shared |
| MountFacts.MountKeepsShape | packages/framework/src/runtime/mount-dom.ts:3-44 | mounting only adds links: without them, the mounted tree is the tree given |
| MountFacts.MountAllKeepsShape | packages/framework/src/runtime/mount-dom.ts:33 | the same for a list of children |
| MountFacts.MountTextNode | packages/framework/src/runtime/mount-dom.ts:21-26 | a text node gets `el` = one new text host node holding its value, appended as the parent's last child |
| MountFacts.MountElementNode | packages/framework/src/runtime/mount-dom.ts:28-38 | an element gets `el` = one new host element of its tag, with its props' listener record. That element is the parent's new last child, and its children are its children's host nodes, in order |
| MountFacts.MountFragmentNode | packages/framework/src/runtime/mount-dom.ts:40-44 | a fragment creates no host node: `el` is the parent, and the parent gains its children's host nodes in order |
| PropsFacts.ListenerRecord | packages/framework/src/runtime/mount-dom.ts:72-83 | with distinct event types (as an object's entries have), the returned record is exactly the given entries |
| PropsFacts.PropsListeners | packages/framework/src/runtime/mount-dom.ts:62-68 | a truthy `on` registers each of its pairs and becomes the node's listener record; otherwise listeners and record stay |
| PropsFacts.GetAttributes | packages/framework/src/runtime/mount-dom.ts:63 | splitting off `on` keeps every other prop's value |
| PropsFacts.OtherAttributesEffect | packages/framework/src/runtime/mount-dom.ts:113-121 | a `null`/`undefined` value removes its attribute; any other value sets its string form; attributes without an entry keep their value |
| PropsFacts.AttributeStep | packages/framework/src/runtime/mount-dom.ts:113-121 | the last entry applied after the others gives what all entries give |
| PropsFacts.StylesEffect | packages/framework/src/runtime/mount-dom.ts:108 | every entry of a style record sets its property; others keep their value |
| PropsFacts.StyleEffect | packages/framework/src/runtime/mount-dom.ts:104-110 | a string style sets the inline style text; a record sets each property; a falsy style changes nothing |
| PropsFacts.AttributesEffect | packages/framework/src/runtime/mount-dom.ts:93-122 | the class list follows `class` (an array adds tokens, other truthy values set `className`), the style follows `style`, every other prop sets or removes its attribute, and nothing else of the element changes |
| PropsFacts.PlainAttributeKept | packages/framework/src/runtime/mount-dom.ts:94 | a prop other than `on`, `class`, `style` reaches the attribute loop |
| PropsFacts.PlainAttributeFrom | packages/framework/src/runtime/mount-dom.ts:94 | every key of the attribute loop is such a prop |
| DestroyDom.Destroy | packages/framework/src/runtime/destroy-dom.ts:4-31 | destroying keeps the set of nodes and the next identity |
| DestroyDom.DestroyAll | packages/framework/src/runtime/destroy-dom.ts:15 | the same; a full pass returns one child per child |
| DestroyDom.DestroyAllStops | packages/framework/src/runtime/destroy-dom.ts:15 | once a child throws, no later child is destroyed |
| DestroyDom.DestroyDOM | packages/framework/src/runtime/destroy-dom.ts:4-31 | the method changes the document and returns the tree as `Destroy` says |
| DestroyDom.DestroyChildren | packages/framework/src/runtime/destroy-dom.ts:15 | the `forEach` agrees with `DestroyAll` |
| DestroyDom.DestroyEffect | packages/framework/src/runtime/destroy-dom.ts:4-31 | a tree mounted under `p` is destroyed without error: the result has no link anywhere, its top host nodes leave `p` and are detached, and nothing else changes but its own nodes |
| DestroyDom.DestroyElementEffect | packages/framework/src/runtime/destroy-dom.ts:18-26 | the same for an element: children first, then listeners, then the element detaches |
| DestroyDom.ElementRemoved | packages/framework/src/runtime/destroy-dom.ts:24-25 | an element whose children are gone leaves its parent |
| DestroyDom.DestroyAllEffect | packages/framework/src/runtime/destroy-dom.ts:15 | destroying mounted children detaches exactly their top host nodes |
| DestroyDom.ChildDestroyed | packages/framework/src/runtime/destroy-dom.ts:15 | destroying one more child extends what the earlier ones detached |
| DestroyDom.DestroyTwice | packages/framework/src/runtime/destroy-dom.ts:5-7 | a destroyed tree has no `el`, so a second destroy changes nothing |
| DestroyDom.DestroyRemovesListeners | packages/framework/src/runtime/destroy-dom.ts:20-23 | every pair of the element's record is unregistered from its host element, which is detached |
| DestroyDom.MountDestroyRoundTrip | packages/framework/src/runtime/destroy-dom.ts:4-31 | mounting then destroying returns the tree without links (the tree itself when it came from `h`); it restores every existing node exactly, so the parent's children are back to before, and leaves the created nodes detached |
| DestroyDom.Restored | packages/framework/src/runtime/destroy-dom.ts:4-31 | unmounting what a mount placed restores every node that existed before |
| LegacyDestroyDom.Destroy | src/runtime/destroy-dom.ts:4-27 | the older teardown keeps the set of nodes and the next identity, and returns a tree whose root `el` is unchanged |
| LegacyDestroyDom.KeepsLinks | src/runtime/destroy-dom.ts:4-27 | every `el` of the tree survives the older teardown: the result owns the same host nodes, places the same ones under the parent and has the same shape |
| LegacyDestroyDom.KeepsLinksAll | src/runtime/destroy-dom.ts:14 | the same for lists of children |
| LegacyDestroyDom.DestroyAll | src/runtime/destroy-dom.ts:14 | the same for the children; a full pass returns one per child |
| LegacyDestroyDom.DestroyAllStops | src/runtime/destroy-dom.ts:14 | once a child throws, no later child is destroyed |
| LegacyDestroyDom.DestroyDOM | src/runtime/destroy-dom.ts:4-27 | the method agrees with the older `Destroy` |
| LegacyDestroyDom.DestroyChildren | src/runtime/destroy-dom.ts:14 | the `forEach` agrees with the older `DestroyAll` |
| LegacyDestroyDom.SameDocument | src/runtime/destroy-dom.ts:4-27 | the older teardown changes the document exactly as the newer one does and fails on the same trees. A linked tree's failure says "unknown type - can't be destroyed" where the newer one gives its own message |
| LegacyDestroyDom.SameDocumentAll | src/runtime/destroy-dom.ts:14 | the same for lists of children |
| LegacyDestroyDom.KeepsValid | src/runtime/destroy-dom.ts:4-27 | the older teardown keeps the document well formed and every node's kind |
| LegacyDestroyDom.KeepsValidAll | src/runtime/destroy-dom.ts:14 | the same for lists of children |
| LegacyDestroyDom.TextKeepsLink | src/runtime/destroy-dom.ts:10-12 | a mounted text node keeps its `el` after the older teardown, though its host node has left the parent; the newer teardown clears it |
| AppShell.WrapperId | src/runtime/app.ts:41-43 | every reducer wrapper is a closure distinct from `renderApp` |
| AppShell.Names | src/runtime/app.ts:38 | the reducer names in `for…in` order |
| AppShell.Setup | src/runtime/app.ts:31-46 | creation keeps one unsubscriber for `renderApp` plus one per reducer |
| AppShell.UnsubscribeAll | src/runtime/app.ts:65 | calling the unsubscribers never forgets a command |
| AppShell.Teardown | src/runtime/app.ts:49 | `if (vdom) destroyDOM(vdom)` keeps the document well formed and every node's kind |
| AppShell.Render | src/runtime/app.ts:48-53 | `renderApp` keeps the state, parent, table and unsubscribers and a well-formed document; its two branches are stated in AppFacts.RenderDetached (no parent) and AppFacts.MountShowsView / AppFacts.RerenderReplaces (a parent) |
| AppShell.Step | src/runtime/app.ts:41-43 | a handler call keeps the table, unsubscribers and parent |
| AppShell.Run | src/runtime/app.ts:35 | the calls of a dispatch keep the table, unsubscribers and parent |
| AppShell.RunStops | src/runtime/app.ts:35 | once a call throws, the later calls do not run |
| AppShell.EmitCommand | src/runtime/app.ts:34-36 | `emit` keeps the table, unsubscribers and parent |
| AppShell.MountApp | src/runtime/app.ts:56-59 | `mount(p)` sets the parent to `p` and keeps the state |
| AppShell.UnmountApp | src/runtime/app.ts:61-66 | `unmount` forgets the tree and calls every unsubscriber, keeping state and parent |
| AppShell.App.constructor | src/runtime/app.ts:23-46 | the object holds the initial state, no tree, no parent, a new dispatcher, and the table and unsubscribers `Setup` gives |
| AppShell.App.RenderApp | src/runtime/app.ts:48-53 | the fields change as `Render` says |
| AppShell.App.Emit | src/runtime/app.ts:34-36 | the fields change as `EmitCommand` says |
| AppShell.App.RunCalls | src/runtime/dispatcher.ts:59-65 | running the calls of a dispatch changes the fields as `Run` says |
| AppShell.App.Call | src/runtime/app.ts:41-43 | one call changes the fields as `Step` says |
| AppShell.App.Mount | src/runtime/app.ts:56-59 | the fields change as `MountApp` says |
| AppShell.App.Unmount | src/runtime/app.ts:61-66 | the fields change as `UnmountApp` says |
| AppShell.App.CallUnsubscribers | src/runtime/app.ts:65 | the dispatcher's table becomes `UnsubscribeAll` of its unsubscribers |
| AppFacts.SetupShape | src/runtime/app.ts:31-46 | with distinct reducer names, each reducer's command has exactly its own wrapper, `renderApp` is the only after-handler, and the unsubscribers are `renderApp`'s then one per reducer, in order |
| AppFacts.SetupNext | src/runtime/app.ts:38-46 | one more reducer extends the wiring of the earlier ones |
| AppFacts.ReducerEmit | src/runtime/app.ts:34-43 | emitting a reducer's command replaces the state with `reducer(state, payload)` and then re-renders |
| AppFacts.WiredDispatch | src/runtime/app.ts:41-43 | dispatching a reducer's command calls its wrapper, then `renderApp` |
| AppFacts.ReducerThenRender | src/runtime/app.ts:41-53 | the wrapper then `renderApp` renders the reduced state |
| AppFacts.UnknownEmit | src/runtime/app.ts:34-36 | emitting a command no reducer handles fails with the dispatcher's error and changes nothing |
| AppFacts.RenderDetached | src/runtime/app.ts:48-53 | `renderApp` with no parent (an `emit` before `mount`) makes the view of the state the tree, mounts nothing and leaves the document and everything else as it was |
| AppFacts.MountShowsView | src/runtime/app.ts:56-59 | mounting an application that shows nothing yet (no tree, or an unlinked tree that an `emit` before `mount` rendered) mounts the view of its state under the parent, and nothing else that existed changes |
| AppFacts.RerenderReplaces | src/runtime/app.ts:48-53 | re-rendering replaces the old tree's top host nodes with the new view's, at the end; a parent that held only the old tree holds exactly the new one; the new tree is again linked, tidy and free of the parent, so re-renders chain |
| AppFacts.Silenced | src/runtime/app.ts:61-66 | the table unmount leaves: it knows exactly the reducer commands and has no after-handler |
| AppFacts.UnsubscribeWired | src/runtime/app.ts:65 | calling creation's unsubscribers in order gives the silenced table |
| AppFacts.UnsubscribePrefix | src/runtime/app.ts:65 | after the first `j + 1` unsubscribers, the first `j` commands are emptied and `renderApp` is gone |
| AppFacts.UnsubscribeFirst | src/runtime/app.ts:65 | the first unsubscriber removes `renderApp` from the after-handlers and leaves every command's list as it was |
| AppFacts.UnsubscribeNext | src/runtime/app.ts:65 | the next unsubscriber empties exactly the next reducer's list |
| AppFacts.UnsubscribeSilenced | src/runtime/app.ts:65 | more unsubscribe calls on a silenced table change nothing (each list is empty) |
| AppFacts.UnmountSilences | src/runtime/app.ts:61-66 | after `unmount` the tree is gone; a reducer command can still be emitted but runs no reducer and no re-render; another command fails; a second `unmount` changes nothing |
| AppFacts.UnmountClears | src/runtime/app.ts:61-66 | `unmount` of an application mounted under `p` succeeds and takes the tree's top host nodes out of `p`; a parent that held only the application ends empty |
| AppFacts.MountThenUnmount | src/runtime/app.ts:56-66 | mounting an application and then unmounting it succeeds, silences every reducer and gives every node that existed before back exactly as it was; an empty parent is empty again, as src/runtime/app.test.ts:140-143 expects |
| Sequences.Filter | packages/framework/src/runtime/arrays.ts:27 | `filter` keeps exactly the elements that pass, in order |
| Sequences.IndexOf | packages/framework/src/runtime/dispatcher.ts:51 | `indexOf` finds the first position of the value, or -1 exactly when it is absent |
| Sequences.InsertAt | packages/framework/src/runtime/arrays.ts:172 | `splice(i, 0, x)` puts `x` at `i` and shifts the rest |
| Sequences.SpliceOne | packages/framework/src/runtime/dispatcher.ts:52 | `splice(start, 1)` removes position `start` inside the array, position `length + start` for a start in `-length..-1`, the first position for a start below that, and nothing for a start at or past the end |
| Sequences.RemoveAt | packages/framework/src/runtime/arrays.ts:193 | `splice(i, 1)` drops position `i` and shifts the rest |

## Left out

- The `equalsFn` parameter of `arraysDiffSequence` is not modelled. The model uses the default `===`, which the `includes` calls at packages/framework/src/runtime/arrays.ts:92 and :101 use in any case.
- Items are strings, and `!oldItem` is modelled literally: an empty string counts as "no item" and is added again. So the all-noop result of `Arrays.ArraysDiffSequence` is stated only for arrays without `""`.
- Arrays.ArrayWithOriginalIndices.MoveItem: requires the item to occur after `toIndex`. Its only caller guarantees this (arrays.ts:101). The path where `getFromIndex` returns -1 is not modelled.
- The `Array.isArray` guards of `arraysDiff` are not modelled: the arguments are sequences by type.
- The `log*` calls of the reconciler and diff-logger.ts are not modelled: logging has no effect on the result.
- Objects.ObjectsDiff / Objects.ObjectsDiffSelf: values are compared by a reflexive equality, so there is no NaN. In JavaScript `NaN !== NaN`, so `objectsDiff(a, a)` reports a key holding NaN as updated; the model does not.
- `isObject` sees values only through `typeof` and null-ness. Arrays, dates and other non-plain objects are not modelled as objects with keys. Integer-like keys, which `Object.keys` orders first, are not modelled.
- The concrete DOM is replaced by the abstract `Host` document:
  - `classList`, `style`, event firing and `domel[key] = value` property writes are not modelled;
  - `className` is one class-list entry;
  - hierarchy errors and empty-token errors of the browser are not modelled.
- Host.Append: the new child list is stated only for a detached child, the only kind the mount code appends.
- Prop values are null, undefined, strings, string arrays, string records and handler records.
  - Numbers, booleans and NaN are not modelled.
  - An `on` that is not a handler record registers nothing.
  - A `style` that is neither a string nor a string record is ignored (MountDom.WithStyle). That includes a string array and a handler record (`PHandlers`): in JavaScript `Object.entries` of either would write properties, such as style["0"], which the model does not.
- Virtual nodes are values. Mounting and destroying return the re-linked tree instead of writing `el`/`listeners` into shared objects, so aliasing of one vnode object in two places is not modelled.
- When mounting or destroying throws part-way, the links already written into earlier siblings are not returned. The document keeps every change made up to the error.
- Handlers, reducers and `view` are pure and opaque. Re-entrant dispatch, and handlers that change the handler lists during a dispatch, are not modelled. Neither is the `emit` function that `createApp` passes to `view`.
- One `Registry`/`Dispatching` model stands for both copies of the dispatcher. src/runtime/dispatcher.ts and packages/framework/src/runtime/dispatcher.ts differ only in names and types.
- The older `hString` and `mapStringsToTextNodes` (src/runtime/h.ts:49-58) are the same code as the newer ones, so `VDom.HString` and `VDom.MapStringsToTextNodes` stand for both.
- src/runtime/mount-dom.ts is not part of this model. The application shell mounts with the model of packages/framework/src/runtime/mount-dom.ts, and tears down with the older `destroyDOM` of src/runtime/destroy-dom.ts, which app.ts imports.
- Reducers are taken in the order `for…in` visits them, with distinct names; the model does not order integer-like reducer names first.
- The example applications and the bundler configuration are not modelled.

## Findings

| source | as written | input that shows it | evidently intended | confidence | as-written member | corrected member |
|---|---|---|---|---|---|---|
| src/runtime/destroy-dom.ts:10-23 | no branch deletes `vdom.el`, so a destroyed node still points at a host node that has left the document | a text node mounted under a parent and then destroyed; src/runtime/destroy-dom.test.ts:21 expects its `el` to be undefined | every branch clears `el`, as packages/framework/src/runtime/destroy-dom.ts:12, 16 and 25 do | not executed | LegacyDestroyDom.TextKeepsLink | DestroyDom.DestroyEffect |

The corrected teardown is `DestroyDom.Destroy`, and `DestroyDom.DestroyEffect` proves that its result carries no link at all. `LegacyDestroyDom.SameDocument` proves that the two teardowns change the document identically. The application shell keeps the older teardown that app.ts imports, because the document it produces is the same.
