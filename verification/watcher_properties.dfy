/** What a tick promises its subscribers, derived from the reference description of a tick. */
module WatcherProperties {
  import opened Wrappers
  import opened Exceptions
  import opened FixedWidth
  import opened AclModels
  import opened PipeModels
  import opened PipeWatcher

  /** No two positions carry the same name. */
  predicate DistinctNames(ps: seq<PipeModel>) {
    forall i, j :: 0 <= i < j < |ps| ==> ps[i].name != ps[j].name
  }

  /**
   * Created is raised exactly for the names that are new to this tick, once
   * per name; nothing in the Created/Updated list is a Deleted event.
   */
  lemma {:induction false} CreatedExactlyForNewNames(prev: map<string, PipeModel>, ps: seq<PipeModel>)
    ensures forall e :: e in Expected(prev, ps) ==> !e.Deleted?
    ensures forall e :: e in Expected(prev, ps) && e.Created? ==> e.pipe.name in Names(ps) && e.pipe.name !in prev
    ensures forall n :: n in Names(ps) && n !in prev ==> Created(FirstWith(ps, n)) in Expected(prev, ps)
    ensures forall i, j :: 0 <= i < j < |Expected(prev, ps)| && Expected(prev, ps)[i].Created? && Expected(prev, ps)[j].Created?
              ==> Expected(prev, ps)[i].pipe.name != Expected(prev, ps)[j].pipe.name
  {
    if |ps| > 0 {
      var init, p := ps[..|ps| - 1], ps[|ps| - 1];
      CreatedExactlyForNewNames(prev, init);
      LastSnoc(ps);
      var before := Expected(prev, init);
      assert Expected(prev, ps) == before + EventFor(prev, init, p);
      forall n | n in Names(ps) && n !in prev
        ensures Created(FirstWith(ps, n)) in Expected(prev, ps)
      {
        FirstWithSnoc(ps, n);
      }
      if EventFor(prev, init, p) == [Created(p)] {
        assert p.name !in Names(init);
        forall i | 0 <= i < |before| && before[i].Created?
          ensures before[i].pipe.name != p.name
        {
          assert before[i] in before;
        }
      }
    }
  }

  /** The ordered part of a tick holds only Created and Updated events. */
  lemma {:induction false} OrderedEventsHaveNoDeleted(prev: map<string, PipeModel>, ps: seq<PipeModel>)
    ensures forall e :: e in Expected(prev, ps) ==> !e.Deleted?
  {
    if |ps| > 0 {
      OrderedEventsHaveNoDeleted(prev, ps[..|ps| - 1]);
    }
  }

  /** The first snapshot enumerated under a name. */
  function FirstWith(ps: seq<PipeModel>, n: string): (p: PipeModel)
    requires n in Names(ps)
    ensures p.name == n
  {
    if n in Names(ps[..|ps| - 1]) then FirstWith(ps[..|ps| - 1], n) else ps[|ps| - 1]
  }

  lemma FirstWithSnoc(ps: seq<PipeModel>, n: string)
    requires |ps| > 0 && n in Names(ps)
    ensures n in Names(ps[..|ps| - 1]) ==> FirstWith(ps, n) == FirstWith(ps[..|ps| - 1], n)
    ensures n !in Names(ps[..|ps| - 1]) ==> FirstWith(ps, n) == ps[|ps| - 1] && ps[|ps| - 1].name == n
  {
    LastSnoc(ps);
  }

  /** No name is both Created and Deleted in one tick; every Deleted name was absent from the enumeration. */
  lemma CreatedNeverDeleted(prev: map<string, PipeModel>, ps: seq<PipeModel>)
    ensures TimerTick(prev, ps).removed.Keys !! Names(ps)
    ensures forall e :: e in TimerTick(prev, ps).events && e.Created? ==> e.pipe.name !in TimerTick(prev, ps).removed
    ensures forall n :: n in TimerTick(prev, ps).removed ==> TimerTick(prev, ps).removed[n] == prev[n]
  {
    CreatedExactlyForNewNames(prev, ps);
  }

  /** The event list as delivered: Created/Updated in order, then one Deleted per removed name. */
  function Emitted(o: TickOutcome, order: seq<string>): (es: seq<Event>)
    requires forall i :: 0 <= i < |order| ==> order[i] in o.removed
  {
    o.events + seq(|order|, i requires 0 <= i < |order| => Deleted(o.removed[order[i]]))
  }

  /** `order` lists the removed names, each once: some iteration order of the dictionary. */
  predicate EnumeratesRemoved(o: TickOutcome, order: seq<string>) {
    && (forall i :: 0 <= i < |order| ==> order[i] in o.removed)
    && (forall n :: n in o.removed ==> n in order)
    && (forall i, j :: 0 <= i < j < |order| ==> order[i] != order[j])
  }

  /**
   * Whatever the dictionary's order: every removed snapshot is reported once,
   * carrying its last-known value, and all Deleted events follow all others.
   */
  lemma DeletedComeLast(prev: map<string, PipeModel>, ps: seq<PipeModel>, order: seq<string>)
    requires EnumeratesRemoved(TimerTick(prev, ps), order)
    ensures var es := Emitted(TimerTick(prev, ps), order);
      && (forall i, j :: 0 <= i < j < |es| && es[i].Deleted? ==> es[j].Deleted?)
      && (forall n :: n in prev && n !in Names(ps) ==> Deleted(prev[n]) in es)
      && |es| == |TimerTick(prev, ps).events| + |TimerTick(prev, ps).removed|
  {
    var o := TimerTick(prev, ps);
    OrderedEventsHaveNoDeleted(prev, ps);
    DeletedSuffix(o, order);
    assert forall n :: n in prev && n !in Names(ps) ==> n in o.removed && o.removed[n] == prev[n];
  }

  /** The Deleted part of an emitted list, for any outcome whose ordered events hold no Deleted. */
  lemma DeletedSuffix(o: TickOutcome, order: seq<string>)
    requires EnumeratesRemoved(o, order)
    requires forall e :: e in o.events ==> !e.Deleted?
    ensures var es := Emitted(o, order);
      && (forall i, j :: 0 <= i < j < |es| && es[i].Deleted? ==> es[j].Deleted?)
      && (forall n :: n in o.removed ==> Deleted(o.removed[n]) in es)
      && |es| == |o.events| + |o.removed|
  {
    var es := Emitted(o, order);
    forall i | 0 <= i < |o.events|
      ensures !es[i].Deleted?
    {
      assert es[i] == o.events[i] && o.events[i] in o.events;
    }
    forall n | n in o.removed
      ensures Deleted(o.removed[n]) in es
    {
      var k :| 0 <= k < |order| && order[k] == n;
      assert es[|o.events| + k] == Deleted(o.removed[n]);
    }
    OrderCountsRemoved(o, order);
  }

  /** An order that enumerates the removed names has one position per removed name. */
  lemma OrderCountsRemoved(o: TickOutcome, order: seq<string>)
    requires EnumeratesRemoved(o, order)
    ensures |order| == |o.removed|
  {
    DistinctCard(order);
    assert (set i | 0 <= i < |order| :: order[i]) == o.removed.Keys;
  }

  /** A list without repeats has as many distinct elements as positions. */
  lemma {:induction false} DistinctCard(xs: seq<string>)
    requires forall i, j :: 0 <= i < j < |xs| ==> xs[i] != xs[j]
    ensures |set i | 0 <= i < |xs| :: xs[i]| == |xs|
  {
    if |xs| > 0 {
      var init := xs[..|xs| - 1];
      DistinctCard(init);
      var s0 := set i | 0 <= i < |init| :: init[i];
      var s1 := set i | 0 <= i < |xs| :: xs[i];
      assert s1 == s0 + {xs[|xs| - 1]};
      assert xs[|xs| - 1] !in s0;
    }
  }

  /** On an empty retained map (the first tick after a start) every distinct pipe is Created, in order. */
  lemma FirstTickCreatesAll(ps: seq<PipeModel>)
    requires DistinctNames(ps)
    ensures TimerTick(map[], ps).events == seq(|ps|, i requires 0 <= i < |ps| => Created(ps[i]))
    ensures TimerTick(map[], ps).removed == map[]
  {
    ExpectedFromNothing(ps);
  }

  /** The reference events from an empty retained map: one Created per distinct pipe, in order. */
  lemma {:induction false} ExpectedFromNothing(ps: seq<PipeModel>)
    requires DistinctNames(ps)
    ensures Expected(map[], ps) == seq(|ps|, i requires 0 <= i < |ps| => Created(ps[i]))
  {
    if |ps| > 0 {
      var init, p := ps[..|ps| - 1], ps[|ps| - 1];
      assert DistinctNames(init);
      ExpectedFromNothing(init);
      NotInEarlierNames(ps, |ps| - 1);
      assert EventFor(map[], init, p) == [Created(p)];
      CreatedSnoc(ps);
    }
  }

  /** One Created per pipe, split before the last pipe. */
  lemma CreatedSnoc(ps: seq<PipeModel>)
    requires |ps| > 0
    ensures seq(|ps|, i requires 0 <= i < |ps| => Created(ps[i]))
         == seq(|ps| - 1, i requires 0 <= i < |ps| - 1 => Created(ps[..|ps| - 1][i])) + [Created(ps[|ps| - 1])]
  {
  }

  /**
   * Ticking twice on the same enumeration without duplicates is quiet the
   * second time: no Created, no Updated, nothing removed.
   */
  lemma {:induction false} SecondTickIsQuiet(prev: map<string, PipeModel>, ps: seq<PipeModel>)
    requires DistinctNames(ps)
    ensures TimerTick(TimerTick(prev, ps).next, ps).events == []
    ensures TimerTick(TimerTick(prev, ps).next, ps).removed == map[]
    ensures TimerTick(TimerTick(prev, ps).next, ps).next == TimerTick(prev, ps).next
  {
    var m := TimerTick(prev, ps).next;
    assert forall n :: n in m ==> m[n] == Last(ps, n);
    TickOnRetained(m, ps);
  }

  /**
   * Two ticks of a running watcher on the same enumeration without
   * duplicates: the second raises nothing, removes nothing and leaves the
   * watcher as the first left it.
   */
  lemma TickTwiceIsQuiet(w: Watcher, ps: seq<PipeModel>)
    requires w.running && DistinctNames(ps)
    ensures Tick(w, ps).1.running
    ensures Tick(Tick(w, ps).1, ps).0.events == []
    ensures Tick(Tick(w, ps).1, ps).0.removed == map[]
    ensures Tick(Tick(w, ps).1, ps).1 == Tick(w, ps).1
  {
    SecondTickIsQuiet(w.prev, ps);
  }

  /** A tick on the map a pass over `ps` retained, enumerating `ps` again. */
  lemma TickOnRetained(m: map<string, PipeModel>, ps: seq<PipeModel>)
    requires DistinctNames(ps)
    requires m.Keys == Names(ps) && forall n :: n in m ==> m[n] == Last(ps, n)
    ensures TimerTick(m, ps).events == []
    ensures TimerTick(m, ps).removed == map[]
    ensures TimerTick(m, ps).next == m
  {
    UnchangedIsQuiet(m, ps, ps);
    RetainedAgain(m, ps);
  }

  /** Enumerating the same names again leaves nothing unseen and retains the same snapshots. */
  lemma RetainedAgain(m: map<string, PipeModel>, ps: seq<PipeModel>)
    requires m.Keys == Names(ps) && forall n :: n in m ==> m[n] == Last(ps, n)
    ensures TimerTick(m, ps).removed == map[]
    ensures TimerTick(m, ps).next == m
  {
    var t := TimerTick(m, ps);
    assert t.removed.Keys == {};
    assert t.next.Keys == m.Keys;
    assert forall n :: n in m ==> t.next[n] == m[n];
  }

  /** In a list without repeated names, the snapshot at a position is the last one under its name. */
  lemma {:induction false} LastOfDistinct(all: seq<PipeModel>, k: nat)
    requires DistinctNames(all) && k < |all|
    ensures all[k].name in Names(all) && Last(all, all[k].name) == all[k]
  {
    if k < |all| - 1 {
      var init := all[..|all| - 1];
      assert init[k] == all[k];
      assert all[|all| - 1].name != all[k].name;
      LastOfDistinct(init, k);
    }
  }

  /** In a list without repeated names, no earlier position carries the name at `k`. */
  lemma NotInEarlierNames(all: seq<PipeModel>, k: nat)
    requires DistinctNames(all) && k < |all|
    ensures all[k].name !in Names(all[..k])
  {
    NamesMembership(all[..k]);
  }

  /** If every enumerated snapshot equals the retained one, a prefix of the pass raises nothing. */
  lemma {:induction false} UnchangedIsQuiet(m: map<string, PipeModel>, all: seq<PipeModel>, ps: seq<PipeModel>)
    requires DistinctNames(all) && |ps| <= |all| && ps == all[..|ps|]
    requires m.Keys == Names(all) && forall n :: n in m ==> m[n] == Last(all, n)
    ensures Expected(m, ps) == []
  {
    if |ps| > 0 {
      var k := |ps| - 1;
      var init := ps[..k];
      assert init == all[..k];
      UnchangedIsQuiet(m, all, init);
      assert ps[k] == all[k];
      NotInEarlierNames(all, k);
      LastOfDistinct(all, k);
    }
  }

  // ----- example ticks -----

  function Pipe(name: string, maxConn: int32, active: uint32): PipeModel {
    Create(".", name, maxConn, active, None)
  }

  /** A two-pipe pass, step by step. */
  lemma TwoPipes(prev: map<string, PipeModel>, a: PipeModel, b: PipeModel)
    ensures Names([a, b]) == {a.name, b.name}
    ensures Last([a, b], b.name) == b
    ensures a.name != b.name ==> Last([a, b], a.name) == a
    ensures Expected(prev, [a, b]) == EventFor(prev, [], a) + EventFor(prev, [a], b)
    ensures b.name == a.name ==> EventFor(prev, [a], b) == (if a != b then [Updated(b)] else [])
  {
    assert [a, b][..1] == [a] && [a][..0] == [];
    assert Names([a]) == {a.name};
    assert Expected(prev, [a]) == EventFor(prev, [], a);
  }

  /** From nothing, A and B are Created in enumeration order. */
  lemma CreationScenario()
    ensures TimerTick(map[], [Pipe("A", 1, 0), Pipe("B", 1, 0)]).events == [Created(Pipe("A", 1, 0)), Created(Pipe("B", 1, 0))]
    ensures TimerTick(map[], [Pipe("A", 1, 0), Pipe("B", 1, 0)]).removed == map[]
  {
    FirstTickCreatesAll([Pipe("A", 1, 0), Pipe("B", 1, 0)]);
  }

  /** The same pipe twice in one pass: identical copies raise one Created, differing copies one Created and one Updated. */
  lemma DuplicateScenario()
    ensures TimerTick(map[], [Pipe("A", 1, 0), Pipe("A", 1, 0)]).events == [Created(Pipe("A", 1, 0))]
    ensures TimerTick(map[], [Pipe("A", 1, 0), Pipe("A", 1, 1)]).events == [Created(Pipe("A", 1, 0)), Updated(Pipe("A", 1, 1))]
    ensures TimerTick(map[], [Pipe("A", 1, 0), Pipe("A", 1, 1)]).next == map["A" := Pipe("A", 1, 1)]
  {
    IdenticalDuplicate();
    DifferingDuplicate();
  }

  /** Two identical copies of a pipe in one pass raise a single Created. */
  lemma IdenticalDuplicate()
    ensures TimerTick(map[], [Pipe("A", 1, 0), Pipe("A", 1, 0)]).events == [Created(Pipe("A", 1, 0))]
  {
    TwoPipes(map[], Pipe("A", 1, 0), Pipe("A", 1, 0));
  }

  /** Two differing copies of a pipe in one pass raise Created then Updated, and the later copy is retained. */
  lemma DifferingDuplicate()
    ensures TimerTick(map[], [Pipe("A", 1, 0), Pipe("A", 1, 1)]).events == [Created(Pipe("A", 1, 0)), Updated(Pipe("A", 1, 1))]
    ensures TimerTick(map[], [Pipe("A", 1, 0), Pipe("A", 1, 1)]).next == map["A" := Pipe("A", 1, 1)]
  {
    var a0, a1 := Pipe("A", 1, 0), Pipe("A", 1, 1);
    TwoPipes(map[], a0, a1);
    assert TimerTick(map[], [a0, a1]).next.Keys == {"A"};
  }

  /**
   * Tick 1 sees foo (10 instances, 2 active) and bar (unlimited, 0 active);
   * tick 2 sees foo with 3 active and a new baz: foo is Updated, baz Created,
   * bar Deleted with its last snapshot.
   */
  lemma EndToEndScenario()
    ensures var t1 := TimerTick(map[], [Pipe("foo", 10, 2), Pipe("bar", -1, 0)]);
      var t2 := TimerTick(t1.next, [Pipe("foo", 10, 3), Pipe("baz", 1, 0)]);
      && t1.events == [Created(Pipe("foo", 10, 2)), Created(Pipe("bar", -1, 0))]
      && t2.events == [Updated(Pipe("foo", 10, 3)), Created(Pipe("baz", 1, 0))]
      && t2.removed == map["bar" := Pipe("bar", -1, 0)]
  {
    EndToEndFirstTick();
    EndToEndSecondTick();
  }

  /** The first tick of the scenario: both pipes Created and retained under their names. */
  lemma EndToEndFirstTick()
    ensures var t1 := TimerTick(map[], [Pipe("foo", 10, 2), Pipe("bar", -1, 0)]);
      && t1.events == [Created(Pipe("foo", 10, 2)), Created(Pipe("bar", -1, 0))]
      && t1.next == map["foo" := Pipe("foo", 10, 2), "bar" := Pipe("bar", -1, 0)]
  {
    var foo2, bar := Pipe("foo", 10, 2), Pipe("bar", -1, 0);
    FirstTickCreatesAll([foo2, bar]);
    TwoDistinctRetained(map[], foo2, bar);
  }

  /** Two pipes with different names are both retained, each under its own name. */
  lemma TwoDistinctRetained(prev: map<string, PipeModel>, a: PipeModel, b: PipeModel)
    requires a.name != b.name
    ensures TimerTick(prev, [a, b]).next == map[a.name := a, b.name := b]
  {
    RetainedPair(prev, a, b);
    var next, m := TimerTick(prev, [a, b]).next, map[a.name := a, b.name := b];
    assert next.Keys == m.Keys;
    assert forall n :: n in next ==> next[n] == m[n];
  }

  /** The names and snapshots a two-pipe pass retains. */
  lemma RetainedPair(prev: map<string, PipeModel>, a: PipeModel, b: PipeModel)
    requires a.name != b.name
    ensures TimerTick(prev, [a, b]).next.Keys == {a.name, b.name}
    ensures TimerTick(prev, [a, b]).next[a.name] == a && TimerTick(prev, [a, b]).next[b.name] == b
  {
    TwoPipes(prev, a, b);
  }

  /** The second tick of the scenario, from what the first one retained. */
  lemma EndToEndSecondTick()
    ensures var t2 := TimerTick(map["foo" := Pipe("foo", 10, 2), "bar" := Pipe("bar", -1, 0)],
                                [Pipe("foo", 10, 3), Pipe("baz", 1, 0)]);
      && t2.events == [Updated(Pipe("foo", 10, 3)), Created(Pipe("baz", 1, 0))]
      && t2.removed == map["bar" := Pipe("bar", -1, 0)]
  {
    var prev := map["foo" := Pipe("foo", 10, 2), "bar" := Pipe("bar", -1, 0)];
    var foo3, baz := Pipe("foo", 10, 3), Pipe("baz", 1, 0);
    UpdatedThenCreated(prev, foo3, baz);
    TwoPipes(prev, foo3, baz);
    assert Unseen(prev, [foo3, baz]).Keys == {"bar"};
  }

  /** A changed known pipe followed by a new one: one Updated, then one Created. */
  lemma UpdatedThenCreated(prev: map<string, PipeModel>, a: PipeModel, b: PipeModel)
    requires a.name in prev && prev[a.name] != a && b.name !in prev && a.name != b.name
    ensures Expected(prev, [a, b]) == [Updated(a), Created(b)]
  {
    TwoPipes(prev, a, b);
  }

  // ----- the lifecycle -----

  /**
   * Stopping and starting again forgets everything: the next tick reports
   * every present pipe as Created, even those already known before the stop.
   */
  lemma RestartReplaysEveryPipe(w: Watcher, ps: seq<PipeModel>)
    requires Inv(w) && w.running && !w.disposed && DistinctNames(ps)
    ensures SetIsRunning(w, false).Success?
    ensures SetIsRunning(SetIsRunning(w, false).value, true).Success?
    ensures var started := SetIsRunning(SetIsRunning(w, false).value, true).value;
      && started.running
      && Tick(started, ps).0.events == seq(|ps|, i requires 0 <= i < |ps| => Created(ps[i]))
      && Tick(started, ps).0.removed == map[]
  {
    FirstTickCreatesAll(ps);
  }

  /**
   * A change of host while running restarts the watcher on the new host:
   * the next tick reports every pipe there as Created, and none of the old
   * host's pipes is ever reported as Deleted.
   */
  lemma HostChangeIsStopThenStart(w: Watcher, h: string, ps: seq<PipeModel>)
    requires Inv(w) && !w.disposed && w.running && NormalizeHost(Some(h)) != w.host && DistinctNames(ps)
    ensures SetHost(w, Some(h)).Success?
    ensures var moved := SetHost(w, Some(h)).value;
      && moved.running && moved.host == NormalizeHost(Some(h))
      && Tick(moved, ps).0.events == seq(|ps|, i requires 0 <= i < |ps| => Created(ps[i]))
      && Tick(moved, ps).0.removed == map[]
  {
    FirstTickCreatesAll(ps);
  }

  /** After disposal every configuration change throws except stopping. */
  lemma DisposedRejectsChanges(w: Watcher, h: Option<string>, interval: int)
    requires w.disposed
    ensures SetHost(w, h) == Failure(ObjectDisposed)
    ensures SetRefreshInterval(w, interval) == Failure(ObjectDisposed)
    ensures SetIsRunning(w, true) == Failure(ObjectDisposed)
    ensures SetIsRunning(w, false).Success?
  {
  }

  /** Starting an already running watcher, or stopping a stopped one, changes nothing. */
  lemma SameRunningStateIsNoOp(w: Watcher)
    requires !w.disposed
    ensures SetIsRunning(w, w.running) == Success(w)
  {
  }
}
