/**
 * The module state of veld.js (veld.js:140-197): the entity pool, the `running`
 * flag, the previous timestamp, the host's per-frame callback, and the
 * operations `init`, `loop`, `addEntity`, `removeEntity` and `end`.
 *
 * Host code (the page's callbacks, each entity's `update` and `render`, the
 * canvas) is opaque: what the runtime does to it is returned as a sequence of
 * effects, in the order they happen. The host scheduler is a count of
 * outstanding `requestAnimFrame(loop)` requests, and the clock is a parameter.
 */
module Game {
  import opened Wrappers
  import opened Entities
  import opened Resources
  import Collection

  /** A function supplied by the embedding page, known only by its identity. */
  datatype HostFn = HostFn(id: nat)

  /** The value of `update` once the game has started (veld.js:155). */
  datatype UpdateFn = NoOp | Host(f: HostFn)

  /** The closure `init` registers with the resource cache (veld.js:152-159). */
  datatype ReadyCallback = StartGame(start: HostFn, update: Option<HostFn>)

  /** `updateCallback || function () {}`: a missing callback becomes the empty function. */
  function UpdateOf(cb: ReadyCallback): (u: UpdateFn)
    ensures HostCall(u) == (if cb.update.Some? then [CallHost(cb.update.value, true)] else [])
  {
    if cb.update.Some? then Host(cb.update.value) else NoOp
  }

  /** What the runtime does to the outside world. */
  datatype Effect =
    | UpdateEntity(entity: Entity, dt: Option<real>)
    | ClearSurface
    | RenderEntity(entity: Entity)
      /** A call into the page; `running` is the value of the flag the callee observes. */
    | CallHost(f: HostFn, running: bool)
    | ScheduleFrame

  /** `(now - lastTime) / 1000.0`, in seconds; `None` (NaN) when there is no previous tick. */
  function Elapsed(prev: Option<int>, now: int): (dt: Option<real>)
    ensures dt.Some? <==> prev.Some?
    ensures dt.Some? ==> dt.value * 1000.0 == (now - prev.value) as real
  {
    if prev.Some? then Some((now - prev.value) as real / 1000.0) else None
  }

  /** The first `for` loop of a tick (veld.js:168-170). */
  function UpdatePass(es: seq<Entity>, dt: Option<real>): (t: seq<Effect>)
    ensures |t| == |es|
    ensures forall k :: 0 <= k < |es| ==> t[k] == UpdateEntity(es[k], dt)
  {
    if es == [] then [] else UpdatePass(es[..|es| - 1], dt) + [UpdateEntity(es[|es| - 1], dt)]
  }

  /** The second `for` loop of a tick (veld.js:174-176). */
  function RenderPass(es: seq<Entity>): (t: seq<Effect>)
    ensures |t| == |es|
    ensures forall k :: 0 <= k < |es| ==> t[k] == RenderEntity(es[k])
  {
    if es == [] then [] else RenderPass(es[..|es| - 1]) + [RenderEntity(es[|es| - 1])]
  }

  /** `update()` (veld.js:178): the empty function does nothing observable. */
  function HostCall(u: UpdateFn): seq<Effect>
  {
    match u
    case NoOp => []
    case Host(f) => [CallHost(f, true)]
  }

  /** Everything a running tick does, in order (veld.js:165-182). */
  function TickEffects(es: seq<Entity>, dt: Option<real>, u: UpdateFn): (t: seq<Effect>)
    ensures |t| == 2 * |es| + 2 + |HostCall(u)|
    ensures t[|es|] == ClearSurface && t[|t| - 1] == ScheduleFrame
  {
    UpdatePass(es, dt) + [ClearSurface] + RenderPass(es) + HostCall(u) + [ScheduleFrame]
  }

  /** Where each effect of a tick sits. */
  lemma TickLayout(es: seq<Entity>, dt: Option<real>, u: UpdateFn)
    ensures var t := TickEffects(es, dt, u);
            |t| == 2 * |es| + 2 + |HostCall(u)| &&
            (forall k :: 0 <= k < |es| ==> t[k] == UpdateEntity(es[k], dt)) &&
            t[|es|] == ClearSurface &&
            (forall k :: 0 <= k < |es| ==> t[|es| + 1 + k] == RenderEntity(es[k])) &&
            (u.Host? ==> t[2 * |es| + 1] == CallHost(u.f, true)) &&
            t[|t| - 1] == ScheduleFrame
  {
  }

  /** Which kind of effect index `i` of a tick holds. */
  lemma TickAt(es: seq<Entity>, dt: Option<real>, u: UpdateFn, i: int)
    requires 0 <= i < |TickEffects(es, dt, u)|
    ensures var t := TickEffects(es, dt, u); var n := |es|;
            (t[i].UpdateEntity? <==> i < n) &&
            (t[i].ClearSurface? <==> i == n) &&
            (t[i].RenderEntity? <==> n < i <= 2 * n) &&
            (t[i].CallHost? ==> i > 2 * n) &&
            (t[i].ScheduleFrame? <==> i == |t| - 1)
  {
  }

  /** A running tick updates every entity before anything else happens, clears before
      any render, renders every entity before calling the page, and reschedules last. */
  lemma TickOrder(es: seq<Entity>, dt: Option<real>, u: UpdateFn)
    ensures var t := TickEffects(es, dt, u);
            (forall i, j :: 0 <= i < |t| && 0 <= j < |t| && t[i].UpdateEntity? && !t[j].UpdateEntity? ==> i < j) &&
            (forall i, j :: 0 <= i < |t| && 0 <= j < |t| && t[i].ClearSurface? && t[j].RenderEntity? ==> i < j) &&
            (forall i, j :: 0 <= i < |t| && 0 <= j < |t| && t[i].RenderEntity? && t[j].CallHost? ==> i < j) &&
            (forall i :: 0 <= i < |t| - 1 ==> !t[i].ScheduleFrame?)
  {
  }

  /** What the ready closure of `init` does when `cb` fires (veld.js:152-159):
      the start callback, then the first tick if the game is still running. */
  function StartEffects(cb: ReadyCallback, running: bool, es: seq<Entity>, prev: Option<int>, now: int): (t: seq<Effect>)
    ensures |t| >= 1 && t[0] == CallHost(cb.start, running)
    ensures |t| == 1 <==> !running
  {
    [CallHost(cb.start, running)] + (if running then TickEffects(es, Elapsed(prev, now), UpdateOf(cb)) else [])
  }

  /** The ready callbacks `cbs` run one after another. Each running tick records `now`,
      so the ticks after the first see an elapsed time of zero. */
  function ReadyRun(cbs: seq<ReadyCallback>, running: bool, es: seq<Entity>, prev: Option<int>, now: int): (t: seq<Effect>)
    ensures !running ==> |t| == |cbs| && forall k :: 0 <= k < |cbs| ==> t[k] == CallHost(cbs[k].start, false)
    ensures cbs == [] <==> t == []
    ensures cbs != [] ==> t[0] == CallHost(cbs[0].start, running)
  {
    if cbs == [] then []
    else
      var n := |cbs| - 1;
      ReadyRun(cbs[..n], running, es, prev, now) +
      StartEffects(cbs[n], running, es, if running && n > 0 then Some(now) else prev, now)
  }

  /** ReadyRun over one more callback: the new callback's effects come last. */
  lemma ReadyRunSnoc(cbs: seq<ReadyCallback>, running: bool, es: seq<Entity>, prev: Option<int>, now: int, i: int)
    requires 0 <= i < |cbs|
    ensures ReadyRun(cbs[..i + 1], running, es, prev, now) ==
            ReadyRun(cbs[..i], running, es, prev, now) +
            StartEffects(cbs[i], running, es, if running && i > 0 then Some(now) else prev, now)
  {
    assert cbs[..i + 1][..i] == cbs[..i];
  }

  /** The module-scope state of veld.js together with the resource cache it starts from. */
  class Runtime {
    const res: ResourceCache<ReadyCallback>
    /** `entities` (veld.js:140), in update and render order. */
    var entities: seq<Entity>
    var running: bool
    /** The previous tick's timestamp; `None` (undefined) before the first tick. */
    var lastTime: Option<int>
    /** `update` (veld.js:146): `None` (undefined) until a ready callback assigns it. */
    var update: Option<UpdateFn>
    /** Outstanding `requestAnimFrame(loop)` requests. */
    var pendingFrames: nat

    /** A scheduled tick always finds `update` assigned. */
    ghost predicate Valid()
      reads this, res
    {
      res.Valid() && (pendingFrames > 0 ==> update.Some?)
    }

    constructor ()
      ensures Valid() && fresh(res)
      ensures entities == [] && running && lastTime == None && update == None && pendingFrames == 0
      ensures res.cache == map[] && res.readyCallbacks == [] && res.inFlight == []
    {
      res := new ResourceCache();
      entities, running, lastTime, update, pendingFrames := [], true, None, None, 0;
    }

    /** `init(canvasId, startCallback, updateCallback)` (veld.js:148-160): only registers
        the ready closure; nothing starts until an `onload` finds the cache ready. */
    method Init(start: HostFn, updateCallback: Option<HostFn>)
      requires Valid()
      modifies res
      ensures Valid()
      ensures res.readyCallbacks == old(res.readyCallbacks) + [StartGame(start, updateCallback)]
      ensures res.cache == old(res.cache) && res.inFlight == old(res.inFlight)
    {
      res.OnReady(StartGame(start, updateCallback));
    }

    /** `veld.resources.load` (veld.js:212-214). */
    method LoadResources(arg: UrlOrArray)
      requires Valid()
      modifies res
      ensures Valid()
      ensures res.cache == AfterLoadUrls(old(res.cache), Urls(arg))
      ensures res.inFlight == old(res.inFlight) + Fetches(old(res.cache), Urls(arg))
      ensures res.readyCallbacks == old(res.readyCallbacks)
    {
      res.Load(arg);
    }

    /** `addEntity(entity)` (veld.js:185-188). */
    method AddEntity(entity: Entity) returns (r: Entity)
      requires Valid()
      modifies this
      ensures Valid()
      ensures entities == old(entities) + [entity] && r == entity
      ensures |entities| == |old(entities)| + 1 && entities[|entities| - 1] == entity
      ensures running == old(running) && lastTime == old(lastTime)
      ensures update == old(update) && pendingFrames == old(pendingFrames)
    {
      entities := entities + [entity];
      r := entity;
    }

    /** `removeEntity(entity)` (veld.js:190-192). */
    method RemoveEntity(entity: Entity)
      requires Valid()
      modifies this
      ensures Valid()
      ensures entities == Collection.Spliced(entity, old(entities))
      ensures running == old(running) && lastTime == old(lastTime)
      ensures update == old(update) && pendingFrames == old(pendingFrames)
    {
      entities := Collection.RemoveFromCollection(entity, entities);
    }

    /** `loop()` (veld.js:162-183) called at clock value `now`. Inert once stopped. */
    method Loop(now: int) returns (effects: seq<Effect>)
      requires Valid() && update.Some?
      modifies this
      ensures Valid()
      ensures entities == old(entities) && running == old(running) && update == old(update)
      ensures !old(running) ==> effects == [] && lastTime == old(lastTime) && pendingFrames == old(pendingFrames)
      ensures old(running) ==>
        effects == TickEffects(entities, Elapsed(old(lastTime), now), update.value) &&
        lastTime == Some(now) && pendingFrames == old(pendingFrames) + 1
    {
      if !running {
        return [];
      }
      var dt := Elapsed(lastTime, now);
      effects := [];
      for i := 0 to |entities|
        invariant effects == UpdatePass(entities[..i], dt)
      {
        assert entities[..i + 1][..i] == entities[..i];
        effects := effects + [UpdateEntity(entities[i], dt)];
      }
      assert entities[..|entities|] == entities;
      effects := effects + [ClearSurface];
      ghost var before := effects;
      for i := 0 to |entities|
        invariant effects == before + RenderPass(entities[..i])
      {
        assert entities[..i + 1][..i] == entities[..i];
        effects := effects + [RenderEntity(entities[i])];
      }
      match update.value {
        case Host(f) => effects := effects + [CallHost(f, running)];
        case NoOp =>
      }
      lastTime := Some(now);
      effects := effects + [ScheduleFrame];
      pendingFrames := pendingFrames + 1;
    }

    /** The host runs one scheduled `loop` at clock value `now`. */
    method Frame(now: int) returns (effects: seq<Effect>)
      requires Valid() && pendingFrames > 0
      modifies this
      ensures Valid()
      ensures entities == old(entities) && running == old(running) && update == old(update)
      ensures !old(running) ==> effects == [] && lastTime == old(lastTime) && pendingFrames == old(pendingFrames) - 1
      ensures old(running) ==>
        effects == TickEffects(entities, Elapsed(old(lastTime), now), update.value) &&
        lastTime == Some(now) && pendingFrames == old(pendingFrames)
    {
      pendingFrames := pendingFrames - 1;
      effects := Loop(now);
    }

    /** `end(callback)` (veld.js:194-197): the callback already observes `running == false`. */
    method End(callback: HostFn) returns (effects: seq<Effect>)
      requires Valid()
      modifies this
      ensures Valid()
      ensures !running && effects == [CallHost(callback, false)]
      ensures entities == old(entities) && lastTime == old(lastTime)
      ensures update == old(update) && pendingFrames == old(pendingFrames)
    {
      running := false;
      effects := [CallHost(callback, running)];
    }

    /** The body of the ready closure of `init` (veld.js:152-159). */
    method RunReadyCallback(cb: ReadyCallback, now: int) returns (effects: seq<Effect>)
      requires Valid()
      modifies this
      ensures Valid()
      ensures effects == StartEffects(cb, old(running), old(entities), old(lastTime), now)
      ensures entities == old(entities) && running == old(running) && update == Some(UpdateOf(cb))
      ensures lastTime == (if running then Some(now) else old(lastTime))
      ensures pendingFrames == old(pendingFrames) + (if running then 1 else 0)
    {
      effects := [CallHost(cb.start, running)];
      update := Some(if cb.update.Some? then Host(cb.update.value) else NoOp);
      var tick := Loop(now);
      effects := effects + tick;
    }

    /** `readyCallbacks.forEach(function(func) { func(); })` (veld.js:97), every
        callback being a ready closure of `init`. */
    method RunReadyCallbacks(fired: seq<ReadyCallback>, now: int) returns (effects: seq<Effect>)
      requires Valid()
      modifies this
      ensures Valid()
      ensures effects == ReadyRun(fired, old(running), old(entities), old(lastTime), now)
      ensures entities == old(entities) && running == old(running)
      ensures pendingFrames == old(pendingFrames) + (if running then |fired| else 0)
      ensures lastTime == (if running && fired != [] then Some(now) else old(lastTime))
      ensures update == (if fired != [] then Some(UpdateOf(fired[|fired| - 1])) else old(update))
    {
      effects := [];
      for i := 0 to |fired|
        invariant Valid()
        invariant entities == old(entities) && running == old(running)
        invariant effects == ReadyRun(fired[..i], running, entities, old(lastTime), now)
        invariant pendingFrames == old(pendingFrames) + (if running then i else 0)
        invariant lastTime == (if running && i > 0 then Some(now) else old(lastTime))
        invariant update == (if i > 0 then Some(UpdateOf(fired[i - 1])) else old(update))
      {
        ReadyRunSnoc(fired, running, entities, old(lastTime), now, i);
        var step := RunReadyCallback(fired[i], now);
        effects := effects + step;
      }
      assert fired[..|fired|] == fired;
    }

    /** The host delivers `onload` for one image fetched for `url`, at clock value `now`
        (veld.js:93-98). */
    method OnResourceLoaded(url: string, now: int) returns (fired: seq<ReadyCallback>, effects: seq<Effect>)
      requires Valid() && url in res.inFlight
      modifies this, res
      ensures Valid()
      ensures res.cache == old(res.cache)[url := Loaded(Image(url))]
      ensures res.inFlight == RemoveOne(old(res.inFlight), url)
      ensures res.readyCallbacks == old(res.readyCallbacks)
      ensures fired == if AllLoaded(res.cache) then res.readyCallbacks else []
      ensures effects == ReadyRun(fired, old(running), old(entities), old(lastTime), now)
      ensures entities == old(entities) && running == old(running)
      ensures pendingFrames == old(pendingFrames) + (if running then |fired| else 0)
      ensures lastTime == (if running && fired != [] then Some(now) else old(lastTime))
      ensures update == (if fired != [] then Some(UpdateOf(fired[|fired| - 1])) else old(update))
    {
      fired := res.OnLoad(url);
      effects := RunReadyCallbacks(fired, now);
    }
  }

  /** The names the module-scope `var` statement of veld.js:146 declares. */
  const DeclaredNames: set<string> := {"canvas", "ctx", "update", "lastTIme", "running"}

  /** How a call of `loop` ends. */
  datatype LoopOutcome = Returned | ReferenceError(name: string)

  /** `loop` as written: a running tick reads `lastTime` (veld.js:166) before touching
      any entity, and reading a name that no scope declares throws a ReferenceError. */
  function LoopAsWritten(running: bool): (r: LoopOutcome)
    ensures !running ==> r == Returned
    ensures r.ReferenceError? ==> r.name !in DeclaredNames
  {
    if !running then Returned
    else if "lastTime" in DeclaredNames then Returned
    else ReferenceError("lastTime")
  }

  /** As written, every running tick throws: no entity is updated, nothing is drawn,
      `lastTime` is never assigned and no next frame is requested. */
  lemma RunningLoopThrowsAsWritten(running: bool)
    ensures LoopAsWritten(running) == (if running then ReferenceError("lastTime") else Returned)
  {
    assert "lastTime" != "lastTIme";
  }
}
