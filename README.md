# veld.js runtime core, modelled in Dafny

veld.js is a small browser game runtime. This project models the part of it that is
sequential state rather than canvas drawing or trigonometry:

- **The entity pool.** `entities` is an insertion-ordered list. `addEntity` appends to it.
  `removeEntity` is an in-place filter built from a forward index loop and `splice`.
- **The `Entity` constructor defaults.** A missing or zero `x`/`y` becomes 0, a missing
  or zero `direction` becomes 180, and `speed` is always 1.
- **The resource cache.** This is the `resources` closure: a map from URL to Pending or
  Loaded, the outstanding image fetches, and the ready callbacks. Its operations are
  `load`, `_load`, `get`, `isReady`, `onReady` and the `onload` event of each image.
- **The frame loop.** Its state is the `running` flag, the previous timestamp, the page's
  `update` callback and the number of outstanding `requestAnimFrame(loop)` requests.
  Its operations are `init`, `loop`, the host's frame event and `end`.

Files:

- `wrappers.dfy` holds `Option`.
- `collection.dfy` holds `removeFromCollection`.
- `entity.dfy` holds the `Entity` class.
- `resources.dfy` holds the `ResourceCache` class and its specification functions.
- `game.dfy` holds the `Runtime` class, the tick specification and the `lastTime` finding.
- `scenarios.dfy` holds whole sessions driven the way a page drives the library.

Code that belongs to the page or the browser is opaque. This covers the page's callbacks,
each entity's `update` and `render`, and the canvas. The runtime's dealings with it are
returned as a sequence of `Effect`s, in order: `UpdateEntity(e, dt)`, `ClearSurface`,
`RenderEntity(e)`, `CallHost(f, running)` and `ScheduleFrame`. The `running` field of
`CallHost` is the value of the flag the callee would observe. The clock is a parameter
`now` in milliseconds, and an image load is an event the host delivers.

## Behaviour of veld.js worth knowing

- `removeFromCollection` (veld.js:61-67) does not remove every occurrence. After a splice
  at index i the loop still increments i, so the element that slid into i is never
  compared. Of two adjacent occurrences, the second stays. `Collection.Spliced` reproduces
  this. `Collection.SkipsAdjacent` and `Scenarios.RemoveAdjacentTwice` exhibit it.
- A new entity's speed is 1 (veld.js:28).
- The first tick has no previous timestamp. Even with the declaration at veld.js:146
  fixed, the first elapsed time is `(now - undefined) / 1000`, which is NaN. The model
  passes `None` instead. In `Entity.prototype.update` (veld.js:33-34), `x += velocity.x * NaN`
  then makes every entity's position NaN at the first tick.
- The ready callbacks are never removed (veld.js:120-122). Each `onload` that finds nothing
  Pending runs all of them again (veld.js:96-97). Each run calls the start callback again
  and starts one more loop chain (`Scenarios.LaterLoadRestartsGame`).
- The ready callbacks are invoked only from an `onload` (veld.js:96-97). If no image is
  ever requested, `isReady()` is true but the game never starts (`Scenarios.Session`).

## Model

| member | source | states |
|---|---|---|
| `Collection.SplicedLength` | veld.js:61-67 | The splice loop never lengthens the collection, and it shortens it exactly when `thing` occurs |
| `Collection.RemoveFromCollection` | veld.js:61-67 | The index loop with `splice` leaves exactly `Spliced(thing, collection)`: each unskipped occurrence is dropped and the element after it is kept without being compared |
| `Collection.SplicedAbsent` | veld.js:61-67 | Removing a thing that does not occur leaves the collection unchanged |
| `Collection.SplicedKeepsOthers` | veld.js:61-67 | Every element not identical to `thing` survives, in the original relative order |
| `Collection.SplicedIsSubsequence` | veld.js:61-67 | The loop only deletes: the result is a subsequence of the input |
| `Collection.NoAdjacentRemovesAll` | veld.js:62-64 | If no two occurrences are adjacent, the result is the plain filter and contains no occurrence |
| `Collection.SplicedConcat` | veld.js:62-66 | Cutting the input after an element that is not `thing` cuts the result at the same place |
| `Collection.SkipsAdjacent` | veld.js:62-64 | Of two adjacent occurrences reached by the loop, the first is removed and the second remains |
| `Entities.OrElseZeroIsDefault` | veld.js:24-25 | With fallback 0, `\|\|` gives exactly "argument, or 0 when missing" |
| `Entities.OrElseLosesZero` | veld.js:26 | With a non-zero fallback, an explicit 0 is replaced, so direction 0 becomes 180 |
| `Entities.Entity.constructor` | veld.js:23-29 | `x` and `y` default to 0, `direction` is 180 when missing or 0 and the given value otherwise, `speed` is 1, no sprite |
| `Resources.AfterLoadUrl` | veld.js:87-103 | `_load` leaves a Loaded URL and the whole cache unchanged, marks a new or Pending URL Pending, and touches no other key |
| `Resources.AfterLoadUrlsEffect` | veld.js:76-103 | After `load`, the keys are the old keys plus the requested URLs, Loaded entries are unchanged, every other requested URL is Pending, and unrequested entries are unchanged |
| `Resources.AfterLoadUrlsKeys` | veld.js:76-103 | After `load`, the cache's keys are the old keys plus the requested URLs |
| `Resources.AfterLoadUrlsValue` | veld.js:76-103 | The entry of each single URL after `load`, as in AfterLoadUrlsEffect |
| `Resources.LoadIdempotent` | veld.js:76-103 | Loading the same URLs a second time leaves the cache unchanged |
| `Resources.FetchesExactly` | veld.js:87-102 | A fetch is issued for exactly the requested URLs that were not already Loaded |
| `Resources.LoadBlocksReadiness` | veld.js:87-118 | Requesting a URL that is not Loaded makes `isReady` false |
| `Resources.ReadyAfterOnLoad` | veld.js:93-98 | After an `onload` for `url`, the cache is ready iff every other URL was already Loaded |
| `Resources.ReadinessRecurs` | veld.js:87-100 | From any ready cache, requesting a URL that is not loaded makes it not ready, and that image's `onload` makes it ready again; that the callbacks then run again is the contract of `ResourceCache.OnLoad` |
| `Resources.RemoveOne` | veld.js:93-101 | When an image loads, its fetch leaves the outstanding fetches exactly once |
| `Resources.ResourceCache.constructor` | veld.js:71-73 | The cache, the outstanding fetches and the ready callbacks start empty |
| `Resources.ResourceCache.LoadUrl` | veld.js:87-103 | `_load` returns the cached image and issues nothing when Loaded; otherwise it marks the URL Pending, so `get` answers Pending, issues one fetch and returns nothing |
| `Resources.ResourceCache.Load` | veld.js:76-85 | `load` of one URL or an array applies `_load` to each URL in order, with the cache and fetches of the specification functions; `get` answers undefined afterwards exactly for the URLs that were never requested before and are not among the requested URLs |
| `Resources.ResourceCache.Get` | veld.js:105-107 | In a consistent cache, a Pending answer means a fetch for that URL is outstanding, and a loaded answer is the image fetched for that URL |
| `Resources.ResourceCache.IsReady` | veld.js:109-118 | The flag loop returns true iff no entry is Pending, which holds vacuously for an empty cache |
| `Resources.ResourceCache.OnReady` | veld.js:120-122 | The callback is appended and nothing else changes |
| `Resources.ResourceCache.OnLoad` | veld.js:93-98 | The URL becomes Loaded with the image fetched for it, and all ready callbacks, in registration order, are invoked iff nothing is Pending afterwards; callbacks stay registered |
| `Game.UpdateOf` | veld.js:155 | `updateCallback \|\| function () {}`: a later `update()` calls the page's callback when one was given and does nothing otherwise |
| `Game.Elapsed` | veld.js:165-166 | The elapsed time in seconds times 1000 is `now - lastTime`; there is none without a previous timestamp |
| `Game.UpdatePass` | veld.js:168-170 | The first loop calls `update(dt)` on every entity, one call per entity, in pool order |
| `Game.RenderPass` | veld.js:174-176 | The second loop calls `render()` on every entity, in pool order |
| `Game.TickEffects` | veld.js:165-182 | The specification of a running tick: two effects per entity, the clear, the page's `update` if any and the reschedule; the clear comes right after the updates and the reschedule is last |
| `Game.TickLayout` | veld.js:165-182 | A running tick does the entity updates at positions 0..n-1, the clear at n, the renders at n+1..2n, then the page's `update` if any, and the reschedule last |
| `Game.TickAt` | veld.js:165-182 | Which kind of effect each position of a tick holds |
| `Game.TickOrder` | veld.js:165-182 | Every entity update comes before any other effect, the clear before every render, every render before the call to the page, and the reschedule last |
| `Game.StartEffects` | veld.js:152-159 | The ready closure's first effect is the start callback; it does anything more exactly when the game is still running |
| `Game.ReadyRun` | veld.js:96-98 | The ready closures run in registration order, the first effect being the first closure's start callback. After `end`, each closure only calls its start callback, which observes `running == false`, and none ticks |
| `Game.LoopAsWritten` | veld.js:162-166 | `loop` as written: a stopped loop returns, and any ReferenceError it raises names a name the module does not declare |
| `Game.RunningLoopThrowsAsWritten` | veld.js:146-166 | As written, every running tick throws a ReferenceError on `lastTime` before any other effect |
| `Game.Runtime.constructor` | veld.js:140-146 | The pool is empty, `running` is true, there is no timestamp or `update`, and no frame is scheduled |
| `Game.Runtime.Init` | veld.js:148-160 | `init` only registers the ready closure with the cache; no tick and no frame request happens |
| `Game.Runtime.LoadResources` | veld.js:212-214 | The exported `load` acts on the cache as `ResourceCache.Load` does |
| `Game.Runtime.AddEntity` | veld.js:185-188 | The pool grows by exactly one with the entity last, earlier entries are unchanged, the same entity is returned, and the loop state is unchanged |
| `Game.Runtime.RemoveEntity` | veld.js:190-192 | The pool becomes `Spliced(entity, old pool)` and the loop state is unchanged |
| `Game.Runtime.Loop` | veld.js:162-183 | When stopped, nothing happens and no state changes. When running, the tick's effects occur in the order of TickEffects, `lastTime` becomes `now`, and one more frame is requested |
| `Game.Runtime.Frame` | veld.js:182 | A requested frame runs `loop` and consumes its request; once stopped it only consumes the request |
| `Game.Runtime.End` | veld.js:194-197 | `running` becomes false, and then the callback is invoked exactly once, observing `running == false`; nothing else changes |
| `Game.Runtime.RunReadyCallback` | veld.js:152-159 | The ready closure calls the start callback, sets `update` to the page's callback or the empty function, and then runs `loop` |
| `Game.Runtime.RunReadyCallbacks` | veld.js:96-98 | The fired closures run one after another; each running one requests a frame, and the last one decides `update` |
| `Game.Runtime.OnResourceLoaded` | veld.js:93-98 | An image's `onload` marks its URL Loaded and retires its fetch. If nothing is then Pending, it runs every ready closure in registration order; otherwise nothing else happens |
| `Scenarios.Setup` | veld.js:148-160 | After `init`, `addEntity` and `load` of one image, that image is Pending with one fetch outstanding, and nothing has started |
| `Scenarios.Start` | veld.js:93-98 | That image's `onload` runs the start callback followed by the first tick |
| `Scenarios.StopMakesLoopInert` | veld.js:162-197 | The first tick updates, clears, renders, calls the page and reschedules; `end` calls its callback after stopping; a frame requested earlier then does nothing |
| `Scenarios.SecondTickMeasuresElapsed` | veld.js:165-180 | The second tick hands each entity `(t1 - t0) / 1000` seconds |
| `Scenarios.Session` | veld.js:148-197 | For every sequence of `init`, `load`, `addEntity`, `removeEntity`, `end`, animation frames and image loads in which no `load` names a URL: no fetch is outstanding, no frame is ever requested, no tick happens, and the only effects are the callbacks of `end` |
| `Scenarios.NoImageNeverStarts` | veld.js:109-118 | After `init`, `load([])` and `addEntity`, `isReady()` answers true although no frame has been requested and no tick has happened |
| `Scenarios.LoadAnother` | veld.js:76-100 | Loading one new URL into a fully loaded game leaves exactly that URL Pending and its fetch the only one outstanding |
| `Scenarios.LaterLoadRestartsGame` | veld.js:93-98 | A second image loaded after the start runs the start callback again and leaves two loop chains scheduled |
| `Scenarios.RemoveAdjacentTwice` | veld.js:190-192 | An entity added twice is still in the pool, once, after one `removeEntity` |

## Left out

- `calculateVelocity` and the position arithmetic in `Entity.prototype.update` (veld.js:31-35, 50-59) use floating-point trigonometry. Each entity update is the opaque effect `UpdateEntity(e, dt)`.
- `Entity.prototype.render`, `ctx.drawImage` and `ctx.clearRect` (veld.js:37-41, 172) are calls into the canvas. Each appears only as the effect `RenderEntity(e)` or `ClearSurface`, and the sprite test inside `render` is not modelled.
- The `loading` array (veld.js:72) is declared but never read or written, so it has no counterpart. The model's `inFlight` list is its own bookkeeping of issued fetches.
- `random` (veld.js:132-134) needs `Math.random` and floating-point `floor`.
- The `requestAnimFrame` shim (veld.js:9-16) and its `setTimeout` fallback are not modelled. Scheduling is the count `pendingFrames`, and the host runs a requested frame through `Runtime.Frame`.
- `Game.Elapsed`: JavaScript's floating-point division `(now - lastTime) / 1000.0` is exact division on reals. Rounding is not modelled; no property depends on it, because `dt` is passed to the opaque entity update.
- `Game.Runtime.RunReadyCallback` and `Game.Runtime.RunReadyCallbacks` stand for the ready closure and the `forEach` of veld.js:96-97. In veld.js they are reachable only from an image's `onload`; the model's interface also lets a caller invoke them directly. `Scenarios.Session` drives the runtime only through the operations a page or the host can perform.
- `Date.now()` becomes the parameter `now`. One `onload` event uses one clock value, even though each ready closure's `loop` reads the clock separately.
- `new Image()` and `img.src = url` (veld.js:92-101) are asynchronous browser loading. A fetch is an entry of `inFlight`, and its completion is `OnResourceLoaded`. Two images fetched for the same URL are indistinguishable once loaded (`Image(src)`).
- `document.getElementById`, `getContext`, and the `canvas` and `ctx` variables (veld.js:149-150) are DOM. `Init` takes no canvas id.
- The `window.veld` export object (veld.js:203-218) is wiring. Because `veld.entities` is the same array as the pool, a page could also mutate the pool directly; this aliasing is not modelled.
- Page callbacks are assumed not to call back into the runtime during a tick or an `onload`, although in JavaScript they could (a start callback usually calls `addEntity`). Such calls are modelled as separate runtime calls before or after.
- An exception thrown by a page callback or an entity method propagates and skips the remaining ready callbacks. This is not modelled.
- `Entities.Entity.constructor`: numeric arguments are `Option<real>`, so of JavaScript's falsy numbers only `undefined` and 0 are represented (not NaN or `null`).
- `Resources.ResourceCache.LoadUrl`: `resourceCache` is a plain object with a prototype, so a URL such as `"constructor"` reads as truthy in `_load` and the image is never fetched. The model's map has no inherited keys.

## Findings

| source | as written | input that shows it | evidently intended | confidence | as-written member | corrected member |
|---|---|---|---|---|---|---|
| veld.js:146 | The module declares `lastTIme` but `loop` reads and writes `lastTime` (veld.js:166, 180). Reading an undeclared name throws a ReferenceError, so a running tick throws before updating any entity. `lastTime` is never assigned and no next frame is requested. The throw also escapes the `onload` handler, so any later ready callbacks do not run. | `init(...)`, then `load("a.png")`, then the `onload` of `a.png`: the first `loop()` throws | One declared previous-timestamp variable that is undefined before the first tick and set to `now` by each tick | not executed | `Game.LoopAsWritten`, `Game.RunningLoopThrowsAsWritten` | `Game.Runtime.Loop`, `Scenarios.SecondTickMeasuresElapsed` |
