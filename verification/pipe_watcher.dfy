/**
 * The polling watcher: each timer tick diffs a fresh enumeration against the
 * snapshots retained from the previous tick and raises Created, Updated and
 * Deleted events; the Host, RefreshInterval and IsRunning setters and Dispose
 * form a small state machine around it.
 *
 * A tick is a function of the retained map and the enumerated snapshots; the
 * timer itself is only "a tick happens while running".
 */
module PipeWatcher {
  import opened Wrappers
  import opened Exceptions
  import opened PipeModels

  datatype Event = Created(pipe: PipeModel) | Updated(pipe: PipeModel) | Deleted(pipe: PipeModel)

  /** The state of one pass: what is left of the previous map, the new map, the events so far. */
  datatype Pass = Pass(prev: map<string, PipeModel>, work: map<string, PipeModel>, events: seq<Event>)

  /** One iteration of the tick's loop, for the snapshot `p` just enumerated. */
  function Observe(s: Pass, p: PipeModel): (s': Pass)
    ensures s'.prev == s.prev - {p.name}
    ensures s'.work.Keys == s.work.Keys + {p.name} && s'.work[p.name] == p
    ensures forall k :: k in s.work && k != p.name ==> s'.work[k] == s.work[k]
    ensures |s.events| <= |s'.events| <= |s.events| + 1 && s'.events[..|s.events|] == s.events
    ensures p.name !in s.prev && p.name !in s.work <==> s'.events == s.events + [Created(p)]
  {
    if p.name in s.prev then
      // seen on the previous tick: move it over, report it if it changed
      var oldp := s.prev[p.name];
      Pass(s.prev - {p.name}, s.work[p.name := p], s.events + (if OpNe(oldp, p) then [Updated(p)] else []))
    else if p.name in s.work then
      // a duplicate within this pass: keep the newest value, report only a difference
      if OpNe(s.work[p.name], p) then Pass(s.prev, s.work[p.name := p], s.events + [Updated(p)])
      else s
    else
      Pass(s.prev, s.work[p.name := p], s.events + [Created(p)])
  }

  /** The loop over the enumeration, in enumeration order. */
  function Scan(prev: map<string, PipeModel>, ps: seq<PipeModel>): (s: Pass)
    ensures s.work.Keys == Names(ps)
    ensures s.prev == prev - Names(ps)
    ensures |s.events| <= |ps|
  {
    if |ps| == 0 then Pass(prev, map[], [])
    else Observe(Scan(prev, ps[..|ps| - 1]), ps[|ps| - 1])
  }

  /**
   * What a tick produces: the Created/Updated events in order, the snapshots
   * that are reported Deleted afterwards (in the unspecified order of the
   * dictionary), and the map retained for the next tick.
   */
  datatype TickOutcome = TickOutcome(events: seq<Event>, removed: map<string, PipeModel>, next: map<string, PipeModel>)

  /** `TimerTick`, given the snapshots the enumerator yields for the host. */
  function TimerTick(prev: map<string, PipeModel>, ps: seq<PipeModel>): (o: TickOutcome)
    ensures o.next.Keys == Names(ps)
    ensures forall n :: n in o.next ==> o.next[n] == Last(ps, n)
    ensures o.removed == Unseen(prev, ps)
    ensures o.events == Expected(prev, ps)
  {
    ScanInvariant(prev, ps);
    var s := Scan(prev, ps);
    TickOutcome(s.events, s.prev, s.work)
  }

  // ----- the reference description of a tick -----

  /** The names enumerated. */
  function Names(ps: seq<PipeModel>): set<string>
  {
    if |ps| == 0 then {} else Names(ps[..|ps| - 1]) + {ps[|ps| - 1].name}
  }

  /** A name is enumerated iff some position carries it. */
  lemma {:induction false} NamesMembership(ps: seq<PipeModel>)
    ensures forall n :: n in Names(ps) <==> exists i :: 0 <= i < |ps| && ps[i].name == n
  {
    if |ps| > 0 {
      NamesMembership(ps[..|ps| - 1]);
      assert forall i :: 0 <= i < |ps| - 1 ==> ps[..|ps| - 1][i] == ps[i];
    }
  }

  /** The last snapshot enumerated under a name. */
  function Last(ps: seq<PipeModel>, n: string): (p: PipeModel)
    requires n in Names(ps)
    ensures p.name == n
  {
    if ps[|ps| - 1].name == n then ps[|ps| - 1] else Last(ps[..|ps| - 1], n)
  }

  /** `Last` is the snapshot at the last position carrying the name. */
  lemma {:induction false} LastIsLastOccurrence(ps: seq<PipeModel>, n: string)
    requires n in Names(ps)
    ensures exists i :: 0 <= i < |ps| && ps[i] == Last(ps, n) && forall j :: i < j < |ps| ==> ps[j].name != n
  {
    if ps[|ps| - 1].name != n {
      var init := ps[..|ps| - 1];
      LastIsLastOccurrence(init, n);
      var i :| 0 <= i < |init| && init[i] == Last(init, n) && forall j :: i < j < |init| ==> init[j].name != n;
      assert ps[i] == Last(ps, n);
      assert forall j :: i < j < |init| ==> ps[j] == init[j];
    }
  }

  /** The previous snapshots whose names were not enumerated at all. */
  function Unseen(prev: map<string, PipeModel>, ps: seq<PipeModel>): (m: map<string, PipeModel>)
    ensures m.Keys == prev.Keys - Names(ps)
  {
    map n | n in prev && n !in Names(ps) :: prev[n]
  }

  /**
   * The event, if any, for snapshot `p` enumerated after `earlier`: compared
   * with its last earlier occurrence if there is one, else with the previous
   * tick's snapshot if there is one, else new.
   */
  function EventFor(prev: map<string, PipeModel>, earlier: seq<PipeModel>, p: PipeModel): seq<Event>
  {
    if p.name in Names(earlier) then (if Last(earlier, p.name) != p then [Updated(p)] else [])
    else if p.name in prev then (if prev[p.name] != p then [Updated(p)] else [])
    else [Created(p)]
  }

  /** The Created/Updated events of a tick, one position of the enumeration at a time. */
  function Expected(prev: map<string, PipeModel>, ps: seq<PipeModel>): seq<Event>
  {
    if |ps| == 0 then []
    else Expected(prev, ps[..|ps| - 1]) + EventFor(prev, ps[..|ps| - 1], ps[|ps| - 1])
  }

  /** What the pass state is after the loop has processed `ps`. */
  ghost predicate Processed(prev: map<string, PipeModel>, ps: seq<PipeModel>, s: Pass) {
    && s.prev == Unseen(prev, ps)
    && s.work.Keys == Names(ps)
    && (forall n :: n in Names(ps) ==> s.work[n] == Last(ps, n))
    && s.events == Expected(prev, ps)
  }

  /** The last occurrences after one more snapshot. */
  lemma LastSnoc(ps: seq<PipeModel>)
    requires |ps| > 0
    ensures Names(ps) == Names(ps[..|ps| - 1]) + {ps[|ps| - 1].name}
    ensures forall n :: n in Names(ps) ==>
      Last(ps, n) == if n == ps[|ps| - 1].name then ps[|ps| - 1] else Last(ps[..|ps| - 1], n)
  {
  }

  /** The loop body's first branch: a name retained from the previous tick. */
  lemma ObserveRetained(prev: map<string, PipeModel>, ps: seq<PipeModel>, s: Pass)
    requires |ps| > 0 && Processed(prev, ps[..|ps| - 1], s) && ps[|ps| - 1].name in s.prev
    ensures Processed(prev, ps, Observe(s, ps[|ps| - 1]))
  {
    var init, p := ps[..|ps| - 1], ps[|ps| - 1];
    LastSnoc(ps);
    var s' := Observe(s, p);
    assert p.name !in Names(init) && p.name in prev;
    assert EventFor(prev, init, p) == (if prev[p.name] != p then [Updated(p)] else []);
    assert s'.events == Expected(prev, ps);
    assert s'.prev == Unseen(prev, ps);
  }

  /** The loop body's second branch: a duplicate within the pass. */
  lemma ObserveDuplicate(prev: map<string, PipeModel>, ps: seq<PipeModel>, s: Pass)
    requires |ps| > 0 && Processed(prev, ps[..|ps| - 1], s)
    requires ps[|ps| - 1].name !in s.prev && ps[|ps| - 1].name in s.work
    ensures Processed(prev, ps, Observe(s, ps[|ps| - 1]))
  {
    var init, p := ps[..|ps| - 1], ps[|ps| - 1];
    LastSnoc(ps);
    var s' := Observe(s, p);
    assert p.name in Names(init);
    assert s.work[p.name] == Last(init, p.name);
    assert EventFor(prev, init, p) == (if Last(init, p.name) != p then [Updated(p)] else []);
    assert s'.events == Expected(prev, ps);
    assert Unseen(prev, ps) == Unseen(prev, init);
  }

  /** The loop body's third branch: a new name. */
  lemma ObserveNew(prev: map<string, PipeModel>, ps: seq<PipeModel>, s: Pass)
    requires |ps| > 0 && Processed(prev, ps[..|ps| - 1], s)
    requires ps[|ps| - 1].name !in s.prev && ps[|ps| - 1].name !in s.work
    ensures Processed(prev, ps, Observe(s, ps[|ps| - 1]))
  {
    var init, p := ps[..|ps| - 1], ps[|ps| - 1];
    LastSnoc(ps);
    var s' := Observe(s, p);
    assert p.name !in Names(init) && p.name !in prev;
    assert EventFor(prev, init, p) == [Created(p)];
    assert s'.events == Expected(prev, ps);
    assert Unseen(prev, ps) == Unseen(prev, init);
  }

  /** The loop keeps: the untouched part of the previous map, the last occurrences, the expected events. */
  lemma {:induction false} ScanInvariant(prev: map<string, PipeModel>, ps: seq<PipeModel>)
    ensures Processed(prev, ps, Scan(prev, ps))
  {
    if |ps| > 0 {
      ScanInvariant(prev, ps[..|ps| - 1]);
      var s, p := Scan(prev, ps[..|ps| - 1]), ps[|ps| - 1];
      if p.name in s.prev {
        ObserveRetained(prev, ps, s);
      } else if p.name in s.work {
        ObserveDuplicate(prev, ps, s);
      } else {
        ObserveNew(prev, ps, s);
      }
    }
  }

  // ----- the watcher's lifecycle -----

  /** The initial period, three seconds; intervals are whole seconds here. */
  const DefaultRefreshInterval: int := 3

  /** The longest period `System.Threading.Timer` accepts, in milliseconds: 0xFFFFFFFE. */
  const MaxTimerPeriodMs: int := 0xFFFF_FFFE

  /**
   * A period of whole seconds the timer constructor accepts: in milliseconds
   * it must lie between -1 (infinite) and 0xFFFFFFFE, or the constructor
   * throws ArgumentOutOfRangeException.
   */
  predicate TimerPeriodOk(seconds: int) {
    -1 <= seconds * 1000 <= MaxTimerPeriodMs
  }

  /** In whole seconds the accepted periods are 0 to 4294967, about 49.7 days. */
  lemma TimerPeriodBounds(seconds: int)
    ensures TimerPeriodOk(seconds) <==> 0 <= seconds <= 4294967
  {
    if seconds < 0 {
      assert seconds * 1000 <= -1000;
    } else if seconds > 4294967 {
      assert seconds * 1000 >= 4294968000;
    }
  }

  /**
   * The watcher's fields. `timer` is the period of the armed timer (none when
   * stopped); `timersArmed` counts the timers created, each of which fires at
   * once and then periodically.
   */
  datatype Watcher = Watcher(
    running: bool,
    disposed: bool,
    host: string,
    refreshInterval: int,
    timer: Option<int>,
    timersArmed: nat,
    prev: map<string, PipeModel>)

  /** What the setters keep: a timer exactly while running, at the current period; nothing retained while stopped. */
  predicate Inv(w: Watcher) {
    && (w.running <==> w.timer.Some?)
    && (w.timer.Some? ==> w.timer.value == w.refreshInterval)
    && (w.running ==> TimerPeriodOk(w.refreshInterval))
    && (!w.running ==> w.prev == map[])
    && w.host != ""
    && w.refreshInterval != 0
  }

  /** A new watcher: stopped, on the local host ".", every three seconds. */
  function NewWatcher(): (w: Watcher)
    ensures Inv(w) && !w.running && !w.disposed
    ensures w.host == "." && w.refreshInterval == DefaultRefreshInterval
  {
    Watcher(false, false, ".", DefaultRefreshInterval, None, 0, map[])
  }

  /** Arm a new timer at the current period; the timer constructor refuses a period out of its range. */
  function Start(w: Watcher): (r: Result<Watcher, Exception>)
    ensures r.Failure? <==> !TimerPeriodOk(w.refreshInterval)
    ensures r.Failure? ==> r.error == ArgumentOutOfRange
    ensures r.Success? ==> r.value.running && r.value.timer == Some(w.refreshInterval) && r.value.timersArmed == w.timersArmed + 1
    ensures r.Success? ==>
      r.value.host == w.host && r.value.refreshInterval == w.refreshInterval && r.value.disposed == w.disposed && r.value.prev == w.prev
    ensures r.Success? && Inv(w.(running := false, timer := None)) ==> Inv(r.value)
  {
    if !TimerPeriodOk(w.refreshInterval) then Failure(ArgumentOutOfRange)
    else Success(w.(running := true, timer := Some(w.refreshInterval), timersArmed := w.timersArmed + 1))
  }

  /** Dispose of the timer and forget the retained snapshots. */
  function Stop(w: Watcher): (r: Watcher)
    ensures !r.running && r.timer.None? && r.prev == map[]
    ensures r.host == w.host && r.refreshInterval == w.refreshInterval && r.disposed == w.disposed
    ensures r.timersArmed == w.timersArmed
    ensures Inv(w) ==> Inv(r)
  {
    w.(running := false, timer := None, prev := map[])
  }

  /** The `IsRunning` setter. */
  function SetIsRunning(w: Watcher, value: bool): (r: Result<Watcher, Exception>)
    ensures r.Failure? <==> value && (w.disposed || (!w.running && !TimerPeriodOk(w.refreshInterval)))
    ensures r.Failure? ==> r.error == (if w.disposed then ObjectDisposed else ArgumentOutOfRange)
    ensures r.Success? ==> r.value.running == value && r.value.disposed == w.disposed
    ensures r.Success? ==> r.value.host == w.host && r.value.refreshInterval == w.refreshInterval
    ensures r.Success? && value == w.running ==> r.value == w
    ensures Inv(w) && r.Success? && !value ==> r.value.prev == map[] && r.value.timer.None?
    ensures r.Success? && value && !w.running ==>
      r.value.prev == w.prev && r.value.timer == Some(w.refreshInterval) && r.value.timersArmed == w.timersArmed + 1
    ensures Inv(w) && r.Success? ==> Inv(r.value)
  {
    if value && w.disposed then Failure(ObjectDisposed)
    else if value == w.running then Success(w)
    else if value then Start(w)
    else Success(Stop(w))
  }

  /** The host a `Host` assignment stores: null and "" mean the local host. */
  function NormalizeHost(value: Option<string>): (h: string)
    ensures h != ""
    ensures value.Some? && value.value != "" ==> h == value.value
    ensures value.None? || value.value == "" ==> h == "."
  {
    if value.None? || value.value == "" then "." else value.value
  }

  /** The `Host` setter: a different host while running restarts the watcher on it. */
  function SetHost(w: Watcher, value: Option<string>): (r: Result<Watcher, Exception>)
    ensures r.Failure? <==> w.disposed || (w.running && NormalizeHost(value) != w.host && !TimerPeriodOk(w.refreshInterval))
    ensures r.Failure? ==> r.error == (if w.disposed then ObjectDisposed else ArgumentOutOfRange)
    ensures Inv(w) ==> (r.Failure? <==> w.disposed)
    ensures r.Success? ==> r.value.host == NormalizeHost(value)
    ensures r.Success? ==> r.value.running == w.running && r.value.disposed == w.disposed
    ensures r.Success? ==> r.value.refreshInterval == w.refreshInterval
    ensures r.Success? && NormalizeHost(value) == w.host ==> r.value == w
    ensures r.Success? && NormalizeHost(value) != w.host && w.running ==>
      r.value.prev == map[] && r.value.timer == Some(w.refreshInterval) && r.value.timersArmed == w.timersArmed + 1
    ensures r.Success? && !w.running ==> r.value == w.(host := NormalizeHost(value))
    ensures Inv(w) && r.Success? ==> Inv(r.value)
  {
    if w.disposed then Failure(ObjectDisposed)
    else
      var h := NormalizeHost(value);
      if h == w.host then Success(w)
      else if w.running then
        var stopped := SetIsRunning(w, false).value;
        SetIsRunning(stopped.(host := h), true)
      else Success(w.(host := h))
  }

  /**
   * The `RefreshInterval` setter: zero is refused; a new period re-arms a
   * running watcher's timer, whose constructor refuses a period out of its
   * range, and keeps the retained map.
   */
  function SetRefreshInterval(w: Watcher, value: int): (r: Result<Watcher, Exception>)
    ensures r.Failure? <==> w.disposed || value == 0 || (w.running && value != w.refreshInterval && !TimerPeriodOk(value))
    ensures r.Failure? ==> r.error == (if w.disposed then ObjectDisposed else ArgumentOutOfRange)
    ensures r.Success? ==> r.value.refreshInterval == value && r.value.prev == w.prev
    ensures r.Success? ==> r.value.running == w.running && r.value.host == w.host && r.value.disposed == w.disposed
    ensures r.Success? && value == w.refreshInterval ==> r.value == w
    ensures r.Success? && value != w.refreshInterval && w.running ==>
      r.value.timer == Some(value) && r.value.timersArmed == w.timersArmed + 1
    ensures Inv(w) && r.Success? ==> Inv(r.value)
  {
    if w.disposed then Failure(ObjectDisposed)
    else if value == 0 then Failure(ArgumentOutOfRange)
    else if value == w.refreshInterval then Success(w)
    else
      var w' := w.(refreshInterval := value);
      if !w'.running then Success(w')
      else if !TimerPeriodOk(value) then Failure(ArgumentOutOfRange)
      else Success(w'.(timer := Some(value), timersArmed := w.timersArmed + 1))
  }

  /** `Dispose(bool)`: the first call stops the watcher when disposing and marks it disposed. */
  function Dispose(w: Watcher, disposing: bool): (r: Watcher)
    ensures r.disposed
    ensures w.disposed ==> r == w
    ensures !w.disposed && disposing ==> !r.running
    ensures Inv(w) && !w.disposed && disposing ==> r.prev == map[] && r.timer.None?
    ensures !w.disposed && !disposing ==> r == w.(disposed := true)
    ensures r.host == w.host && r.refreshInterval == w.refreshInterval
    ensures Inv(w) ==> Inv(r)
  {
    if w.disposed then w
    else
      var w' := if disposing then SetIsRunning(w, false).value else w;
      w'.(disposed := true)
  }

  /** A tick of the armed timer: the diff on the retained map, which the new map then replaces. */
  function Tick(w: Watcher, ps: seq<PipeModel>): (r: (TickOutcome, Watcher))
    requires w.running
    ensures r.0 == TimerTick(w.prev, ps)
    ensures r.1.prev.Keys == Names(ps)
    ensures r.1.prev == r.0.next
    ensures r.1 == w.(prev := r.1.prev)
    ensures Inv(w) ==> Inv(r.1)
  {
    var o := TimerTick(w.prev, ps);
    (o, w.(prev := o.next))
  }
}
