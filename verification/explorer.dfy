/**
 * The main view model's cache of pipe views, keyed by pipe path, and the
 * handlers that apply the watcher's events to it; plus the quick filter.
 *
 * Object identity of a view is its `id`; the cache hands out identities in
 * increasing order, so a replaced view never shares one with its successor.
 * The expiry of a view marked for removal is a discrete event carrying the
 * view it was scheduled for; the delay itself is not modelled.
 */
module ExplorerViewModel {
  import opened Wrappers
  import opened Text
  import opened PipeModels
  import opened PipeViews
  import opened PipeWatcher
  import opened WatcherProperties
  import opened Exceptions
  import SettingsStore
  import FixedWidth

  datatype Explorer = Explorer(cache: map<string, PipeView>, nextId: nat)

  /** Each view sits under its own path, carries an identity already handed out, and has consistent flags. */
  predicate Inv(e: Explorer) {
    forall k :: k in e.cache ==>
      e.cache[k].path == k && e.cache[k].id < e.nextId && FlagsConsistent(e.cache[k])
  }

  /** `AddOrUpdate` of a fresh view for `p`. */
  function AddView(e: Explorer, p: PipeModel, markAsRecentlyAdded: bool, now: string): (r: Explorer)
    ensures r.cache.Keys == e.cache.Keys + {Path(p)}
    ensures r.cache[Path(p)] == NewView(p, markAsRecentlyAdded, e.nextId, now)
    ensures forall k :: k in e.cache && k != Path(p) ==> r.cache[k] == e.cache[k]
    ensures r.nextId == e.nextId + 1
    ensures Inv(e) ==> Inv(r)
    ensures Quiet(e) && !markAsRecentlyAdded ==> Quiet(r)
  {
    Explorer(e.cache[Path(p) := NewView(p, markAsRecentlyAdded, e.nextId, now)], e.nextId + 1)
  }

  /** No cached view is highlighted as new or marked for removal. */
  predicate Quiet(e: Explorer) {
    forall k :: k in e.cache ==> !e.cache[k].beingRemoved && !e.cache[k].recentlyAdded
  }

  /** The startup population: a view for every enumerated pipe, not highlighted as new. */
  function Startup(ps: seq<PipeModel>, now: string): (e: Explorer)
    ensures Inv(e)
    ensures e.cache.Keys == Paths(ps)
    ensures Quiet(e)
  {
    if |ps| == 0 then Explorer(map[], 0)
    else
      var init := ps[..|ps| - 1];
      PathsSnoc(ps);
      AddView(Startup(init, now), ps[|ps| - 1], false, now)
  }

  /** The paths of the enumerated pipes. */
  function Paths(ps: seq<PipeModel>): set<string> {
    set i | 0 <= i < |ps| :: Path(ps[i])
  }

  /** The paths of a non-empty enumeration are those of all but the last pipe, plus the last one's. */
  lemma PathsSnoc(ps: seq<PipeModel>)
    requires |ps| > 0
    ensures Paths(ps) == Paths(ps[..|ps| - 1]) + {Path(ps[|ps| - 1])}
  {
    var init := ps[..|ps| - 1];
    assert forall i :: 0 <= i < |init| ==> init[i] == ps[i];
  }

  /** `Pipe_Created`: a new path gets a view; a view being removed is replaced; any other view stays. */
  function PipeCreated(e: Explorer, p: PipeModel, now: string): (r: Explorer)
    ensures Path(p) in r.cache && r.cache.Keys == e.cache.Keys + {Path(p)}
    ensures Path(p) in e.cache && !e.cache[Path(p)].beingRemoved ==> r == e
    ensures Path(p) !in e.cache || e.cache[Path(p)].beingRemoved ==>
      r.cache[Path(p)] == NewView(p, true, e.nextId, now) && r.nextId == e.nextId + 1
    ensures forall k :: k in e.cache && k != Path(p) ==> r.cache[k] == e.cache[k]
    ensures Inv(e) ==> Inv(r)
  {
    var path := Path(p);
    if path in e.cache && e.cache[path].beingRemoved then
      AddView(Explorer(e.cache - {path}, e.nextId), p, true, now)
    else if path !in e.cache then
      AddView(e, p, true, now)
    else e
  }

  /** `Pipe_Updated`: only the cached view for the path changes, and nothing happens without one. */
  function PipeUpdated(e: Explorer, p: PipeModel, now: string): (r: Explorer)
    ensures r.cache.Keys == e.cache.Keys && r.nextId == e.nextId
    ensures Path(p) !in e.cache ==> r == e
    ensures Path(p) in e.cache ==> r.cache[Path(p)] == Update(e.cache[Path(p)], p, now)
    ensures forall k :: k in e.cache && k != Path(p) ==> r.cache[k] == e.cache[k]
    ensures Inv(e) ==> Inv(r)
  {
    var path := Path(p);
    if path in e.cache then Explorer(e.cache[path := Update(e.cache[path], p, now)], e.nextId)
    else e
  }

  /** `Pipe_Deleted`: the cached view is only marked; no key leaves the cache. */
  function PipeDeleted(e: Explorer, p: PipeModel): (r: Explorer)
    ensures r.cache.Keys == e.cache.Keys && r.nextId == e.nextId
    ensures Path(p) !in e.cache ==> r == e
    ensures Path(p) in e.cache ==> r.cache[Path(p)] == MarkForRemoval(e.cache[Path(p)])
    ensures forall k :: k in e.cache && k != Path(p) ==> r.cache[k] == e.cache[k]
    ensures Inv(e) ==> Inv(r)
  {
    var path := Path(p);
    if path in e.cache then Explorer(e.cache[path := MarkForRemoval(e.cache[path])], e.nextId)
    else e
  }

  /** The view under `v`'s path is still `v` itself and still being removed. */
  predicate StillExpiring(e: Explorer, v: PipeView) {
    v.path in e.cache && e.cache[v.path].id == v.id && e.cache[v.path].beingRemoved
  }

  /** The expiry of `v`: its key goes only when the cache still holds that very view, still being removed. */
  function Expire(e: Explorer, v: PipeView): (r: Explorer)
    ensures StillExpiring(e, v) ==> r.cache.Keys == e.cache.Keys - {v.path}
    ensures !StillExpiring(e, v) ==> r == e
    ensures forall k :: k in r.cache ==> k in e.cache && r.cache[k] == e.cache[k]
    ensures Inv(e) ==> Inv(r)
  {
    var opt := if v.path in e.cache then Some(e.cache[v.path]) else None;
    if opt.Some? && opt.value.id == v.id && opt.value.beingRemoved then
      Explorer(e.cache - {v.path}, e.nextId)
    else e
  }

  /** One watcher event, handed to its handler. */
  function Dispatch(e: Explorer, ev: Event, now: string): (r: Explorer)
    ensures Inv(e) ==> Inv(r)
  {
    match ev
    case Created(p) => PipeCreated(e, p, now)
    case Updated(p) => PipeUpdated(e, p, now)
    case Deleted(p) => PipeDeleted(e, p)
  }

  /** A sequence of events, in order. */
  function DispatchAll(e: Explorer, evs: seq<Event>, now: string): (r: Explorer)
    ensures Inv(e) ==> Inv(r)
    decreases |evs|
  {
    if |evs| == 0 then e else DispatchAll(Dispatch(e, evs[0], now), evs[1..], now)
  }

  /**
   * Created events for paths whose views are present and not being removed
   * change nothing, which is what spares the startup population.
   */
  lemma {:induction false} CreatedForPresentIsNoOp(e: Explorer, ps: seq<PipeModel>, now: string)
    requires forall i :: 0 <= i < |ps| ==> Path(ps[i]) in e.cache && !e.cache[Path(ps[i])].beingRemoved
    ensures DispatchAll(e, seq(|ps|, i requires 0 <= i < |ps| => Created(ps[i])), now) == e
  {
    var evs := seq(|ps|, i requires 0 <= i < |ps| => Created(ps[i]));
    if |ps| > 0 {
      assert Dispatch(e, evs[0], now) == e;
      assert evs[1..] == seq(|ps[1..]|, i requires 0 <= i < |ps[1..]| => Created(ps[1..][i]));
      CreatedForPresentIsNoOp(e, ps[1..], now);
    }
  }

  /**
   * The first tick of a freshly started watcher reports every enumerated
   * pipe as Created; on the startup population that leaves the cache as it
   * was.
   */
  lemma StartupSurvivesFirstTick(ps: seq<PipeModel>, now1: string, now2: string)
    requires DistinctNames(ps)
    ensures DispatchAll(Startup(ps, now1), TimerTick(map[], ps).events, now2) == Startup(ps, now1)
  {
    FirstTickCreatesAll(ps);
    CreatedForPresentIsNoOp(Startup(ps, now1), ps, now2);
  }

  /** A view marked for removal is dropped when its expiry fires. */
  lemma DeletedThenExpiredIsRemoved(e: Explorer, p: PipeModel)
    requires Inv(e) && Path(p) in e.cache
    ensures var marked := PipeDeleted(e, p);
      Path(p) !in Expire(marked, marked.cache[Path(p)]).cache
  {
  }

  /** A view that reappears before its expiry fires is replaced by a fresh one, which the stale expiry does not remove. */
  lemma RecreatedSurvivesStaleExpiry(e: Explorer, p: PipeModel, now: string)
    requires Inv(e) && Path(p) in e.cache
    ensures var marked := PipeDeleted(e, p);
      var stale := marked.cache[Path(p)];
      var revived := PipeCreated(marked, p, now);
      Path(p) in Expire(revived, stale).cache && revived.cache[Path(p)].recentlyAdded
  {
  }

  /** A view updated before its expiry fires is no longer being removed, so the expiry leaves it. */
  lemma UpdatedSurvivesExpiry(e: Explorer, p: PipeModel, now: string)
    requires Inv(e) && Path(p) in e.cache
    ensures var marked := PipeDeleted(e, p);
      var stale := marked.cache[Path(p)];
      var updated := PipeUpdated(marked, p, now);
      Path(p) in Expire(updated, stale).cache && updated.cache[Path(p)].id == stale.id
  {
  }

  /** `BuildFilter`: no filter text accepts every view; otherwise the name must contain the text. */
  function Accepts(filter: Option<string>, v: PipeView): (r: bool)
    ensures filter.None? || filter.value == "" ==> r
    ensures filter.Some? && filter.value != "" ==> (r <==> exists i :: OccursAt(v.name, filter.value, i))
  {
    if filter.None? || filter.value == "" then true
    else Contains(v.name, filter.value)
  }

  /**
   * The constructor hands the loaded refresh interval to the watcher, whose
   * setter refuses zero, and, when the watcher already runs, a period the
   * timer refuses.
   */
  function ConnectWatcher(s: SettingsStore.Settings, w: Watcher): (r: Result<Watcher, Exception>)
    ensures !w.running ==> (r.Success? <==> !w.disposed && s.refreshInterval != 0)
    ensures r.Success? ==> !w.disposed && s.refreshInterval != 0
    ensures r.Success? ==> r.value.refreshInterval == s.refreshInterval as int && r.value.running == w.running
    ensures !w.disposed && s.refreshInterval == 0 ==> r == Failure(ArgumentOutOfRange)
  {
    SetRefreshInterval(w, s.refreshInterval as int)
  }

  /**
   * Loading accepts a stored refresh interval of 0, which the validation of
   * the settings dialog calls an error; the watcher then refuses it, so the
   * view model cannot be built from such a key.
   */
  lemma StoredZeroIntervalRejected(k: SettingsStore.RegKey)
    requires k.values == map[SettingsStore.RefreshIntervalName := SettingsStore.DWord(0)]
    ensures SettingsStore.Load(Some(k)).refreshInterval == 0
    ensures ConnectWatcher(SettingsStore.Load(Some(k)), NewWatcher()) == Failure(ArgumentOutOfRange)
  {
    SettingsStore.StoredIntervalBounds(k, 0);
  }

  /**
   * Loading accepts any positive stored interval, and the stopped watcher
   * takes it; starting, as `StartImmediately` asks when it is not stored,
   * then succeeds exactly when the timer accepts the period, so an interval
   * above 4294967 seconds stops the view model from being built.
   */
  lemma StoredIntervalStartsWithinTimerRange(k: SettingsStore.RegKey, d: FixedWidth.int32)
    requires k.values == map[SettingsStore.RefreshIntervalName := SettingsStore.DWord(d)] && d > 0
    ensures SettingsStore.Load(Some(k)).refreshInterval == d && SettingsStore.Load(Some(k)).startImmediately
    ensures ConnectWatcher(SettingsStore.Load(Some(k)), NewWatcher()).Success?
    ensures var w := ConnectWatcher(SettingsStore.Load(Some(k)), NewWatcher()).value;
      SetIsRunning(w, true).Success? <==> d <= 4294967
    ensures d > 4294967 ==>
      SetIsRunning(ConnectWatcher(SettingsStore.Load(Some(k)), NewWatcher()).value, true) == Failure(ArgumentOutOfRange)
  {
    SettingsStore.StoredIntervalBounds(k, d);
    TimerPeriodBounds(d as int);
  }
}
