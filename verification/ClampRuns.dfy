/** Whole runs of the registry of clamps. */
module ClampRuns {
  import opened MachineWords
  import opened SenseSettings
  import opened ClampRegistry
  import opened ClampAgreement

  /** The registry agreed with itself, and had no bit outside the mask, after every event. */
  ghost predicate GoodRun(env: Env, events: seq<Event>) {
    events == [] ||
    (var before, e := events[..|events| - 1], events[|events| - 1];
     GoodRun(env, before) && Agree(env, Run(env, events)) && Run(env, events).status <= e.mask)
  }

  /** Every clamp that left was called by its registered name. */
  ghost predicate MatchedRun(env: Env, events: seq<Event>) {
    events == [] ||
    (var before, e := events[..|events| - 1], events[|events| - 1];
     MatchedRun(env, before) && NamesMatch(env, Run(env, before), e))
  }

  ghost predicate FreshRun(env: Env, events: seq<Event>) {
    events == [] ||
    (var before, e := events[..|events| - 1], events[|events| - 1];
     FreshRun(env, before) && env.Names(e) && SecondsFresh(env, Run(env, before), e))
  }

  lemma InitAgrees(env: Env)
    ensures Agree(env, INIT)
  {
  }

  lemma {:induction false} GoodRunAgrees(env: Env, events: seq<Event>)
    requires GoodRun(env, events)
    ensures Agree(env, Run(env, events))
  {
    InitAgrees(env);
    hide Agree;
  }

  /** Over every run: the registry agrees with itself after every event exactly when every clamp that leaves is called
      by the name it was registered under. */
  lemma {:induction false} RunAgreesIff(env: Env, events: seq<Event>)
    requires env.WellWired() && FreshRun(env, events)
    ensures GoodRun(env, events) <==> MatchedRun(env, events)
  {
    hide Agree, NamesMatch, SecondsFresh, Env.Names, Env.WellWired, Actualize;
    if events == [] {
    } else {
      var before, e := events[..|events| - 1], events[|events| - 1];
      RunAgreesIff(env, before);
      if GoodRun(env, before) {
        GoodRunAgrees(env, before);
        ActualizedAgreesIff(env, Run(env, before), e);
      }
    }
  }

  // ---------- names that do not change

  ghost predicate SameNames(e0: Event, events: seq<Event>) {
    forall k :: 0 <= k < |events| ==> events[k].names == e0.names
  }

  /** The watched channels have secondary channels of their own. */
  ghost predicate SecondariesApart(env: Env, e: Event) {
    forall i: nat, j: nat :: env.Watched(i) && env.Watched(j) && i != j ==>
      env.SecondaryName(e, i) != env.SecondaryName(e, j) || env.SecondaryName(e, i) == ""
  }

  ghost predicate Drawn(env: Env, e: Event, r: Registry) {
    forall name <- r.secondaryOf ::
      exists i: nat :: Named(env, i, name) && (r.secondaryOf[name] == "" || r.secondaryOf[name] == env.SecondaryName(e, i))
  }

  lemma OneKeepsDrawn(env: Env, r: Registry, e: Event, change: set<int>, k: nat)
    requires k < |env.settings| && env.Names(e) && Drawn(env, e, r)
    ensures Drawn(env, e, ActualizeOne(r, env, e, change, k))
  {
    hide Env.SecondaryName, NonEmpty;
    UnwatchedIsIdle(env, r, e, change, k);
    var t := ActualizeOne(r, env, e, change, k);
    forall name | name in t.secondaryOf
      ensures exists i: nat :: Named(env, i, name)
                               && (t.secondaryOf[name] == "" || t.secondaryOf[name] == env.SecondaryName(e, i))
    {
      if name in r.secondaryOf && t.secondaryOf[name] == r.secondaryOf[name] {
      } else {
        assert Named(env, k, name);
      }
    }
  }

  lemma {:induction false} FirstKeepDrawn(env: Env, r: Registry, e: Event, change: set<int>, k: nat)
    requires k <= |env.settings| && env.Names(e) && Drawn(env, e, r)
    ensures Drawn(env, e, ActualizeFirst(r, env, e, change, k))
  {
    hide Drawn, ActualizeOne, Env.Names;
    if k == 0 {
    } else {
      FirstKeepDrawn(env, r, e, change, k - 1);
      OneKeepsDrawn(env, ActualizeFirst(r, env, e, change, k - 1), e, change, k - 1);
    }
  }

  lemma SameNamesDo(env: Env, e0: Event, e: Event, r: Registry)
    requires e.names == e0.names
    ensures env.Names(e) <==> env.Names(e0)
    ensures SecondariesApart(env, e) <==> SecondariesApart(env, e0)
    ensures Drawn(env, e, r) <==> Drawn(env, e0, r)
  {
  }

  lemma {:induction false} RunIsDrawn(env: Env, e0: Event, events: seq<Event>)
    requires env.Names(e0) && SameNames(e0, events)
    ensures Drawn(env, e0, Run(env, events))
  {
    hide Env.Names, Drawn, ActualizeFirst, Changed;
    if events == [] {
      NoneDrawn(env, e0);
    } else {
      var before, e := events[..|events| - 1], events[|events| - 1];
      RunIsDrawn(env, e0, before);
      SameNamesDo(env, e0, e, Run(env, before));
      FirstKeepDrawn(env, Run(env, before), e, Changed(e.mask, Run(env, before).status), |env.settings|);
      SameNamesDo(env, e0, e, Run(env, events));
    }
  }

  lemma NoneDrawn(env: Env, e: Event)
    ensures Drawn(env, e, INIT)
  {
  }

  lemma DrawnIsFresh(env: Env, r: Registry, e: Event)
    requires SecondariesApart(env, e) && Drawn(env, e, r)
    ensures SecondsFresh(env, r, e)
  {
    hide Env.SecondaryName;
  }

  lemma {:induction false} SameNamesAreFresh(env: Env, e0: Event, events: seq<Event>)
    requires env.Names(e0) && SecondariesApart(env, e0) && SameNames(e0, events)
    ensures FreshRun(env, events)
  {
    hide Env.Names, SecondariesApart, Drawn, SecondsFresh, Run;
    if events == [] {
    } else {
      var before, e := events[..|events| - 1], events[|events| - 1];
      SameNamesAreFresh(env, e0, before);
      RunIsDrawn(env, e0, before);
      SameNamesDo(env, e0, e, Run(env, before));
      DrawnIsFresh(env, Run(env, before), e);
    }
  }

  /** The sense interface calls each watched channel by its registered name, or not at all. */
  ghost predicate OwnNames(env: Env, e: Event) {
    forall i: nat :: env.Watched(i) && env.settings[i].plugBit < 16 ==> env.SenseName(e, i) in {"", env.settings[i].nameMx}
  }

  ghost predicate StatusNamed(env: Env, e: Event, r: Registry) {
    forall i: nat :: env.Watched(i) && env.settings[i].plugBit in r.status ==>
      env.settings[i].plugBit < 16 && env.SenseName(e, i) != ""
  }

  lemma OwnNamesMatch(env: Env, r: Registry, e: Event)
    requires OwnNames(env, e) && StatusNamed(env, e, r)
    ensures NamesMatch(env, r, e)
  {
    hide Env.SenseName;
    forall i | i in Leaving(env, r, e)
      ensures Called(env, e)(i) != "" && Registered(env)(i) in Image(Leaving(env, r, e), Called(env, e))
    {
      assert Called(env, e)(i) == Registered(env)(i);
    }
  }

  lemma StillNamed(env: Env, r: Registry, e: Event, t: Registry)
    requires env.WellWired() && StatusNamed(env, e, r) && t.status <= r.status + PlugBits(env, Joining(env, r, e))
    ensures StatusNamed(env, e, t)
  {
    hide Env.SenseName, Env.WellWired, Env.Watched;
    AllVisited(env, r, e);
    forall i: nat | env.Watched(i) && i < |env.settings| && env.settings[i].plugBit in t.status && env.settings[i].plugBit !in r.status
      ensures env.settings[i].plugBit < 16 && env.SenseName(e, i) != ""
    {
      OwnPlugBit(env, Joining(env, r, e), i);
    }
    hide Joining;
    forall i: nat | env.Watched(i) ensures i < |env.settings| {
      WatchedIsConfigured(env, i);
    }
  }

  lemma {:induction false} OwnNamesRun(env: Env, e0: Event, events: seq<Event>)
    requires env.WellWired() && env.Names(e0) && SecondariesApart(env, e0) && OwnNames(env, e0) && SameNames(e0, events)
    ensures GoodRun(env, events) && StatusNamed(env, e0, Run(env, events))
  {
    SameNamesAreFresh(env, e0, events);
    hide Env.WellWired, Env.Names, SecondariesApart, OwnNames, StatusNamed, Agree, SecondsFresh, NamesMatch, Actualize, PlugBits,
         ValuesGiven;
    if events == [] {
      NoneNamed(env, e0);
    } else {
      var before, e := events[..|events| - 1], events[|events| - 1];
      var r := Run(env, before);
      OwnNamesRun(env, e0, before);
      GoodRunAgrees(env, before);
      SameOwnNames(env, e0, e, r);
      OwnNamesMatch(env, r, e);
      ActualizedExactly(env, r, e);
      StillNamed(env, r, e, Actualize(r, env, e));
      SameOwnNames(env, e0, e, Actualize(r, env, e));
    }
  }

  lemma NoneNamed(env: Env, e: Event)
    ensures StatusNamed(env, e, INIT)
  {
  }

  lemma SameOwnNames(env: Env, e0: Event, e: Event, r: Registry)
    requires e.names == e0.names
    ensures OwnNames(env, e) <==> OwnNames(env, e0)
    ensures StatusNamed(env, e, r) <==> StatusNamed(env, e0, r)
  {
  }

  /** A clamp comes and goes on one channel. */
  function ComesAndGoes(env: Env, e0: Event, i: nat): seq<Event>
    requires env.Watched(i) && env.settings[i].plugBit < 16
  {
    [e0.(mask := {env.settings[i].plugBit}, memory := (_: int) => ClampMemory(false)), e0.(mask := {})]
  }

  lemma ComesAlone(env: Env, e0: Event, i: nat)
    requires env.WellWired() && env.Names(e0) && SecondariesApart(env, e0)
    requires env.Watched(i) && env.settings[i].plugBit < 16 && env.SenseName(e0, i) != ""
    ensures Run(env, ComesAndGoes(env, e0, i)[..1]).status == {PlugBit(env, i)}
  {
    var e := ComesAndGoes(env, e0, i)[0];
    assert ComesAndGoes(env, e0, i)[..1] == [e] && [e][..0] == [];
    SameNamesAreFresh(env, e0, [e]);
    assert Joins(env, INIT, e, i);
    assert PlugBit(env, i) in PlugBits(env, Joining(env, INIT, e));
    InitAgrees(env);
    assert NamesMatch(env, INIT, e);
    ActualizedExactly(env, INIT, e);
    hide Actualize, Joining, PlugBits, Agree;
    assert Run(env, [e]) == Actualize(Run(env, []), env, e);
  }

  lemma OneLeaves(env: Env, r: Registry, e: Event, i: nat)
    requires env.WellWired() && env.Watched(i) && r.status == {PlugBit(env, i)} && e.mask == {} && NamesMatch(env, r, e)
    ensures env.SenseName(e, i) == env.settings[i].nameMx
  {
    hide Env.SenseName;
    forall j | j in Leaving(env, r, e) ensures j == i {
      assert i < j || j < i || i == j;
    }
    assert i in Leaving(env, r, e);
    assert Leaving(env, r, e) == {i};
    var name :| name in Image({i}, Called(env, e)) && name == Registered(env)(i);
  }

  /** While the names do not change, every run keeps the registry in agreement exactly when the sense interface calls
      every watched channel by its registered name or not at all. */
  lemma SameNamesAgreeIff(env: Env, e0: Event)
    requires env.WellWired() && env.Names(e0) && SecondariesApart(env, e0)
    ensures (forall events | SameNames(e0, events) :: GoodRun(env, events)) <==> OwnNames(env, e0)
  {
    if OwnNames(env, e0) {
      forall events | SameNames(e0, events) ensures GoodRun(env, events) {
        OwnNamesRun(env, e0, events);
      }
    } else {
      var i: nat :| env.Watched(i) && env.settings[i].plugBit < 16 && env.SenseName(e0, i) !in {"", env.settings[i].nameMx};
      hide Env.WellWired, Env.Names, SecondariesApart, Agree, NamesMatch, Env.SenseName, PlugBit, Run;
      var events := ComesAndGoes(env, e0, i);
      assert SameNames(e0, events);
      SameNamesAreFresh(env, e0, events);
      RunAgreesIff(env, events);
      ComesAlone(env, e0, i);
      if MatchedRun(env, events) {
        SameSense(env, e0, events[1], i);
        OneLeaves(env, Run(env, events[..1]), events[1], i);
      }
    }
  }

  lemma SameSense(env: Env, e0: Event, e: Event, i: nat)
    requires e.names == e0.names && i < |env.settings|
    ensures env.SenseName(e, i) == env.SenseName(e0, i)
  {
  }

  /** When a channel is renamed after its clamp was registered, or loses its name, unplugging the clamp finds nothing to
      remove: the status bit stays set although the channel is not plugged. */
  lemma RenamedClampStays(ctrlChannel: u16, mux: int, name: string, renamed: string)
    requires name != "" && name != renamed
    ensures var env := Env([Setting(ctrlChannel, 0, mux, name)], {0});
            var e, f := Event({0}, _ => ClampMemory(false), _ => name), Event({}, _ => NoMemory, _ => renamed);
            var r := Run(env, [e, f]);
            r.status == {0} && name in r.secondaryOf
  {
    var env := Env([Setting(ctrlChannel, 0, mux, name)], {0});
    var e, f := Event({0}, _ => ClampMemory(false), _ => name), Event({}, _ => NoMemory, _ => renamed);
    assert [e, f][..1] == [e] && [e][..0] == [];
    assert Changed({0}, {}) == {0} && Changed({}, {0}) == {0};
    var r := AddClamp(INIT, env, e, 0, false);
    assert r.status == {0};
    assert ActualizeFirst(INIT, env, e, {0}, 1) == r;
    assert Run(env, [e]) == Actualize(INIT, env, e) == r;
    assert Run(env, [e, f]) == Actualize(r, env, f);
    assert ActualizeFirst(r, env, f, {0}, 1) == r;
  }

  /** The secondary of a control channel is called as the sense interface calls the channel half the settings before it. */
  lemma SecondaryIsHalfBefore(env: Env, e: Event, i: nat)
    requires i < |env.settings|
    requires var primary := env.settings[i].ctrlChannel - |env.settings| / 2; 0 <= primary < 0x100
    ensures env.SecondaryName(e, i) == e.names(env.settings[i].ctrlChannel - |env.settings| / 2)
  {
    SmallRemainder(env.settings[i].ctrlChannel - |env.settings| / 2);
  }

  lemma SmallRemainder(x: int)
    requires 0 <= x < 0x100
    ensures x % 0x100 == x
  {
  }

  /** A channel is called by its own number. */
  lemma SenseIsOwnNumber(env: Env, e: Event, i: nat)
    requires i < |env.settings| && 0 <= env.settings[i].ctrlChannel < 0x1_0000
    ensures env.SenseName(e, i) == e.names(env.settings[i].ctrlChannel)
  {
    assert env.settings[i].ctrlChannel % 0x1_0000 == env.settings[i].ctrlChannel;
  }

  /** Distinct control channels below 256 with distinct sense names have distinct secondary channels. */
  lemma DistinctSecondaries(env: Env, e: Event, i: nat, j: nat)
    requires i < |env.settings| && j < |env.settings|
    requires 0 <= env.settings[i].ctrlChannel < 0x100 && 0 <= env.settings[j].ctrlChannel < 0x100
    requires env.settings[i].ctrlChannel != env.settings[j].ctrlChannel
    requires forall a: u16, b: u16 :: a != b && e.names(a) != "" ==> e.names(a) != e.names(b)
    ensures env.SecondaryName(e, i) != env.SecondaryName(e, j) || env.SecondaryName(e, i) == ""
  {
    var d := |env.settings| / 2;
    var a: u16, b: u16 := (env.settings[i].ctrlChannel - d) % 0x100, (env.settings[j].ctrlChannel - d) % 0x100;
    DifferentBelow256(env.settings[i].ctrlChannel, env.settings[j].ctrlChannel, d);
    assert a != b;
  }

  lemma DifferentBelow256(x: int, y: int, d: int)
    requires 0 <= x < 0x100 && 0 <= y < 0x100 && x != y
    ensures (x - d) % 0x100 != (y - d) % 0x100
  {
    var p, q := (x - d) / 0x100, (y - d) / 0x100;
    assert x - y == (p - q) * 0x100 + (x - d) % 0x100 - (y - d) % 0x100;
  }
}
