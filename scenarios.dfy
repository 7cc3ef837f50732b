/**
 * Sessions against the runtime, each driven the way a page drives veld.js:
 * `init`, `load`, `addEntity`, then host events (`onload`, animation frames).
 */
module Scenarios {
  import opened Wrappers
  import opened Entities
  import opened Resources
  import opened Game

  /** The single image the sessions below request. */
  const Sprite: string := "hero.png"

  /** Starts a runtime whose pool holds `hero` and whose one image has been requested. */
  method Setup(hero: Entity, update: Option<HostFn>) returns (g: Runtime)
    ensures fresh(g) && fresh(g.res) && g.Valid()
    ensures g.entities == [hero] && g.running && g.lastTime == None && g.pendingFrames == 0
    ensures g.res.cache == map[Sprite := Pending] && g.res.inFlight == [Sprite]
    ensures g.res.readyCallbacks == [StartGame(HostFn(0), update)]
  {
    g := new Runtime();
    var _ := g.AddEntity(hero);
    g.Init(HostFn(0), update);
    g.LoadResources(Url(Sprite));
    assert [Sprite][..0] == [];
  }

  /** The image arrives: its `onload` finds the cache ready and starts the game. */
  method Start(hero: Entity, update: Option<HostFn>, t0: int) returns (g: Runtime, started: seq<Effect>)
    ensures fresh(g) && fresh(g.res) && g.Valid()
    ensures started == StartEffects(StartGame(HostFn(0), update), true, [hero], None, t0)
    ensures g.entities == [hero] && g.running && g.lastTime == Some(t0) && g.pendingFrames == 1
    ensures g.update == Some(UpdateOf(StartGame(HostFn(0), update)))
    ensures g.res.cache == map[Sprite := Loaded(Image(Sprite))] && g.res.inFlight == []
    ensures g.res.readyCallbacks == [StartGame(HostFn(0), update)]
  {
    g := Setup(hero, update);
    var fired;
    fired, started := g.OnResourceLoaded(Sprite, t0);
    assert AllLoaded(g.res.cache);
    assert [StartGame(HostFn(0), update)][..0] == [];
  }

  /** The first `onload` starts the game; after `end` a frame that was already
      requested finds the loop inert. */
  method StopMakesLoopInert(t0: int, t1: int) returns (hero: Entity, started: seq<Effect>, ended: seq<Effect>, late: seq<Effect>)
    ensures started == [CallHost(HostFn(0), true), UpdateEntity(hero, None), ClearSurface,
                        RenderEntity(hero), CallHost(HostFn(1), true), ScheduleFrame]
    ensures ended == [CallHost(HostFn(2), false)]
    ensures late == []
  {
    hero := new Entity(None, None, None);
    var g;
    g, started := Start(hero, Some(HostFn(1)), t0);
    assert UpdatePass([hero], None) == [UpdateEntity(hero, None)];
    assert RenderPass([hero]) == [RenderEntity(hero)];
    ended := g.End(HostFn(2));
    late := g.Frame(t1);
  }

  /** The second tick hands every entity the time since the first, in seconds. */
  method SecondTickMeasuresElapsed(t0: int, t1: int) returns (hero: Entity, second: seq<Effect>)
    ensures second == [UpdateEntity(hero, Some((t1 - t0) as real / 1000.0)), ClearSurface,
                       RenderEntity(hero), ScheduleFrame]
  {
    hero := new Entity(None, None, None);
    var g, _ := Start(hero, None, t0);
    second := g.Frame(t1);
    var dt := Elapsed(Some(t0), t1);
    assert second == TickEffects([hero], dt, NoOp);
    assert UpdatePass([hero], dt) == [UpdateEntity(hero, dt)];
    assert RenderPass([hero]) == [RenderEntity(hero)];
  }

  /** One page call or host event against the runtime. */
  datatype Op =
    | InitOp(start: HostFn, update: Option<HostFn>)
    | LoadOp(arg: UrlOrArray)
    | AddOp(entity: Entity)
    | RemoveOp(entity: Entity)
    | EndOp(callback: HostFn)
      /** The host runs a requested animation frame. */
    | FrameOp(now: int)
      /** The host delivers the `onload` of an image fetched for `url`. */
    | ImageLoadedOp(url: string, now: int)

  /** No `load` call of the session names a URL. */
  predicate RequestsNothing(ops: seq<Op>)
  {
    forall i :: 0 <= i < |ops| && ops[i].LoadOp? ==> Urls(ops[i].arg) == []
  }

  /** Plays `ops` against a fresh runtime. A host event the host cannot deliver (a frame
      nobody requested, the `onload` of an image nobody fetched) is skipped. If no `load`
      names a URL, then at every step no fetch is outstanding, no frame was requested,
      no tick happened, and the only effects are the callbacks of `end`. */
  method Session(ops: seq<Op>) returns (g: Runtime, effects: seq<Effect>)
    ensures g.Valid()
    ensures RequestsNothing(ops) ==>
      g.res.inFlight == [] && g.pendingFrames == 0 && g.lastTime == None &&
      forall k :: 0 <= k < |effects| ==> effects[k].CallHost? && !effects[k].running
  {
    g := new Runtime();
    effects := [];
    for i := 0 to |ops|
      invariant fresh(g) && fresh(g.res) && g.Valid()
      invariant RequestsNothing(ops) ==>
        g.res.cache == map[] && g.res.inFlight == [] && g.pendingFrames == 0 && g.lastTime == None &&
        forall k :: 0 <= k < |effects| ==> effects[k].CallHost? && !effects[k].running
    {
      match ops[i] {
        case InitOp(start, update) => g.Init(start, update);
        case LoadOp(arg) => g.LoadResources(arg);
        case AddOp(e) => var _ := g.AddEntity(e);
        case RemoveOp(e) => g.RemoveEntity(e);
        case EndOp(callback) =>
          var step := g.End(callback);
          effects := effects + step;
        case FrameOp(now) =>
          if g.pendingFrames > 0 {
            var step := g.Frame(now);
            effects := effects + step;
          }
        case ImageLoadedOp(url, now) =>
          if url in g.res.inFlight {
            var _, step := g.OnResourceLoaded(url, now);
            effects := effects + step;
          }
      }
    }
  }

  /** Without any requested image the cache reports ready, yet nothing ever calls the
      ready closure: the game never starts. */
  method NoImageNeverStarts() returns (ready: bool, frames: nat, ticked: bool)
    ensures ready && frames == 0 && !ticked
  {
    var g := new Runtime();
    g.Init(HostFn(0), None);
    g.LoadResources(UrlArray([]));
    var hero := new Entity(None, None, None);
    var _ := g.AddEntity(hero);
    ready := g.res.IsReady();
    frames := g.pendingFrames;
    ticked := g.lastTime.Some?;
  }

  /** Requests one more image on a started game whose cache is fully loaded. */
  method LoadAnother(g: Runtime, url: string)
    requires g.Valid() && g.res.inFlight == [] && AllLoaded(g.res.cache) && url !in g.res.cache
    modifies g.res
    ensures g.Valid() && g.res.inFlight == [url] && g.res.readyCallbacks == old(g.res.readyCallbacks)
    ensures g.res.cache == old(g.res.cache)[url := Pending]
    ensures forall u :: u in g.res.cache && u != url ==> g.res.cache[u].Loaded?
  {
    g.LoadResources(Url(url));
    assert [url][..0] == [];
  }

  /** Ready callbacks are never removed: a later image's `onload` runs the start callback
      again and starts a second loop beside the first. */
  method LaterLoadRestartsGame(t0: int, t1: int) returns (again: seq<Effect>, frames: nat)
    ensures |again| > 0 && again[0] == CallHost(HostFn(0), true)
    ensures frames == 2
  {
    var hero := new Entity(None, None, None);
    var g, _ := Start(hero, None, t0);
    LoadAnother(g, "level.png");
    ReadyAfterOnLoad(g.res.cache, "level.png");
    var fired;
    fired, again := g.OnResourceLoaded("level.png", t1);
    frames := g.pendingFrames;
  }

  /** An entity added twice in a row survives one `removeEntity` once. */
  method RemoveAdjacentTwice() returns (e: Entity, remaining: seq<Entity>)
    ensures remaining == [e]
  {
    var g := new Runtime();
    e := new Entity(None, None, None);
    var _ := g.AddEntity(e);
    var _ := g.AddEntity(e);
    g.RemoveEntity(e);
    remaining := g.entities;
    assert [e, e][2..] == [];
  }
}
