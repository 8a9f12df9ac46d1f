/** One event in the registry of clamps: when the registry agrees with itself afterwards. */
module ClampAgreement {
  import opened MachineWords
  import opened SenseSettings
  import opened ClampRegistry

  /** A visit changes no bit but the channel's own. */
  lemma OwnBitOnly(env: Env, r: Registry, e: Event, change: set<int>, k: nat, bit: int)
    requires k < |env.settings| && env.settings[k].plugBit != bit
    ensures bit in ActualizeOne(r, env, e, change, k).status <==> bit in r.status
  {
  }

  lemma {:induction false} NotYetVisited(env: Env, r: Registry, e: Event, k: nat, i: nat)
    requires env.WellWired() && env.Names(e) && k <= i && env.Watched(i)
    ensures env.settings[i].plugBit in ActualizeFirst(r, env, e, Changed(e.mask, r.status), k).status
            <==> env.settings[i].plugBit in r.status
  {
    if k == 0 {
    } else {
      NotYetVisited(env, r, e, k - 1, i);
      UnwatchedIsIdle(env, ActualizeFirst(r, env, e, Changed(e.mask, r.status), k - 1), e, Changed(e.mask, r.status), k - 1);
      if env.Watched(k - 1) {
        OwnBitOnly(env, ActualizeFirst(r, env, e, Changed(e.mask, r.status), k - 1), e, Changed(e.mask, r.status), k - 1,
                   env.settings[i].plugBit);
      }
      hide ActualizeOne;
    }
  }

  lemma NextIsUnvisited(env: Env, r: Registry, e: Event, k: nat)
    requires env.WellWired() && env.Names(e) && k < |env.settings|
    ensures var t := ActualizeFirst(r, env, e, Changed(e.mask, r.status), k);
            env.Watched(k) ==> (env.settings[k].plugBit in t.status <==> env.settings[k].plugBit in r.status)
  {
    hide ActualizeFirst, Changed, Env.WellWired, Env.Names;
    if env.Watched(k) {
      NotYetVisited(env, r, e, k, k);
    }
  }

  lemma UnwatchedIsIdle(env: Env, r: Registry, e: Event, change: set<int>, k: nat)
    requires env.Names(e) && k < |env.settings|
    ensures !env.Watched(k) ==> ActualizeOne(r, env, e, change, k) == r
  {
    hide TryAddClamp, HandleClampDisconnected;
  }

  /** What a visit does, by what was so before the event. */
  lemma VisitIs(env: Env, r: Registry, e: Event, t: Registry, k: nat)
    requires env.Names(e) && k < |env.settings|
    requires env.Watched(k) ==> (env.settings[k].plugBit in t.status <==> env.settings[k].plugBit in r.status)
    ensures ActualizeOne(t, env, e, Changed(e.mask, r.status), k) ==
            if Leaves(env, r, e, k) && env.SenseName(e, k) != ""
            then HandleClampDisconnected(t, env.SenseName(e, k), env.settings[k].plugBit)
            else if Joins(env, r, e, k) then AddClamp(t, env, e, k, e.memory(env.settings[k].muxChannel).dual)
            else t
  {
    UnwatchedIsIdle(env, t, e, Changed(e.mask, r.status), k);
    hide HandleClampDisconnected, AddClamp;
  }

  // ---------- necessity

  lemma {:induction false} UncalledStays(env: Env, r: Registry, e: Event, k: nat, name: string)
    requires env.WellWired() && env.Names(e) && k <= |env.settings| && name in r.secondaryOf
    requires forall j: nat :: Leaves(env, r, e, j) ==> env.SenseName(e, j) != name
    ensures name in ActualizeFirst(r, env, e, Changed(e.mask, r.status), k).secondaryOf
  {
    if k == 0 {
    } else {
      UncalledStays(env, r, e, k - 1, name);
      var t := ActualizeFirst(r, env, e, Changed(e.mask, r.status), k - 1);
      if env.Watched(k - 1) {
        NotYetVisited(env, r, e, k - 1, k - 1);
      }
      VisitIs(env, r, e, t, k - 1);
      hide ActualizeOne, Leaves, Joins, Env.WellWired, Env.Names, Env.SenseName, Env.SecondaryName, Changed;
    }
  }

  lemma {:induction false} UncalledKeepsBit(env: Env, r: Registry, e: Event, k: nat, i: nat)
    requires env.WellWired() && env.Names(e) && k <= |env.settings| && Leaves(env, r, e, i) && env.SenseName(e, i) == ""
    ensures env.settings[i].plugBit in ActualizeFirst(r, env, e, Changed(e.mask, r.status), k).status
  {
    if k == 0 {
    } else {
      UncalledKeepsBit(env, r, e, k - 1, i);
      var t := ActualizeFirst(r, env, e, Changed(e.mask, r.status), k - 1);
      if env.Watched(k - 1) && k - 1 != i {
        assert k - 1 < i || i < k - 1;
        OwnBitOnly(env, t, e, Changed(e.mask, r.status), k - 1, env.settings[i].plugBit);
      }
      UnwatchedIsIdle(env, t, e, Changed(e.mask, r.status), k - 1);
      UnnamedIsIdle(env, t, e, Changed(e.mask, r.status), k - 1);
      hide ActualizeOne, Changed;
    }
  }

  lemma UnnamedIsIdle(env: Env, r: Registry, e: Event, change: set<int>, k: nat)
    requires k < |env.settings|
    ensures env.SenseName(e, k) == "" ==> ActualizeOne(r, env, e, change, k) == r
  {
  }

  lemma AgreementNeedsNames(env: Env, r: Registry, e: Event)
    requires env.WellWired() && env.Names(e) && Agree(env, r)
    requires Agree(env, Actualize(r, env, e)) && Actualize(r, env, e).status <= e.mask
    ensures NamesMatch(env, r, e)
  {
    hide ActualizeFirst, Env.SenseName;
    var t, s := Actualize(r, env, e), Leaving(env, r, e);
    forall i | i in s ensures Called(env, e)(i) != "" && Registered(env)(i) in Image(s, Called(env, e)) {
      var name := env.settings[i].nameMx;
      if env.SenseName(e, i) == "" {
        UncalledKeepsBit(env, r, e, |env.settings|, i);
      }
      assert name in r.secondaryOf;
      assert env.settings[i].plugBit !in t.status;
      assert name !in t.secondaryOf;
      if name !in Image(s, Called(env, e)) {
        forall j: nat | Leaves(env, r, e, j) ensures env.SenseName(e, j) != name {
          assert j in s && Called(env, e)(j) == env.SenseName(e, j);
        }
        UncalledStays(env, r, e, |env.settings|, name);
      }
    }
  }

  // ---------- a finite set of names

  lemma {:induction false} ImageSize(s: set<nat>, f: nat -> string)
    ensures |Image(s, f)| <= |s|
    ensures |Image(s, f)| == |s| <==> forall i, j :: i in s && j in s && i != j ==> f(i) != f(j)
    decreases |s|
  {
    if s == {} {
    } else {
      var x :| x in s;
      var rest := s - {x};
      ImageSize(rest, f);
      assert s == rest + {x};
      assert Image(s, f) == Image(rest, f) + {f(x)};
      if f(x) in Image(rest, f) {
        var i :| i in rest && f(i) == f(x);
        assert i in s && x in s && i != x;
        assert Image(s, f) == Image(rest, f);
      } else {
        forall i | i in rest ensures f(i) != f(x) {
          assert f(i) in Image(rest, f);
        }
      }
    }
  }

  lemma SameSize(a: set<string>, b: set<string>)
    requires a <= b && |b| <= |a|
    ensures a == b
  {
    assert b == a + (b - a);
  }

  lemma ImageCovers(s: set<nat>, f: nat -> string, g: nat -> string)
    requires forall i :: i in s ==> g(i) in Image(s, f)
    ensures Image(s, g) <= Image(s, f)
  {
  }

  /** Names that cover as many distinct names are a rearrangement of them. */
  lemma Rearranged(s: set<nat>, f: nat -> string, g: nat -> string)
    requires forall i, j :: i in s && j in s && i != j ==> g(i) != g(j)
    requires forall i :: i in s ==> g(i) in Image(s, f)
    ensures Image(s, f) == Image(s, g)
    ensures forall i, j :: i in s && j in s && i != j ==> f(i) != f(j)
  {
    hide Image;
    ImageSize(s, f);
    ImageSize(s, g);
    ImageCovers(s, f, g);
    SameSize(Image(s, g), Image(s, f));
  }

  lemma RegisteredApart(env: Env, r: Registry, e: Event)
    requires env.WellWired()
    ensures var s, g := Leaving(env, r, e), Registered(env);
            forall i, j :: i in s && j in s && i != j ==> g(i) != g(j)
  {
    var s := Leaving(env, r, e);
    forall i, j | i in s && j in s && i != j ensures Registered(env)(i) != Registered(env)(j) {
      assert i < j || j < i;
    }
  }

  /** With matching names, the channels that leave call each registered name among them exactly once. */
  lemma CalledOnce(env: Env, r: Registry, e: Event)
    requires env.WellWired() && NamesMatch(env, r, e)
    ensures var s, f, g := Leaving(env, r, e), Called(env, e), Registered(env);
            && Image(s, f) == Image(s, g)
            && forall i, j :: i in s && j in s && i != j ==> f(i) != f(j)
  {
    RegisteredApart(env, r, e);
    hide Image, Leaving, Called, Registered, Env.WellWired;
    Rearranged(Leaving(env, r, e), Called(env, e), Registered(env));
  }

  // ---------- sufficiency

  function Joining(env: Env, r: Registry, e: Event): set<nat> {
    set i: nat | i < |env.settings| && Joins(env, r, e, i)
  }

  function UpTo(s: set<nat>, k: nat): set<nat> {
    set i <- s | i < k
  }

  function PlugBit(env: Env, i: nat): int {
    if i < |env.settings| then env.settings[i].plugBit else -1
  }

  function PlugBits(env: Env, s: set<nat>): set<int> {
    set i <- s :: PlugBit(env, i)
  }

  /** The secondary channel that the memory found on a channel asks for. */
  function Chosen(env: Env, e: Event, i: nat): string
    requires i < |env.settings|
  {
    var m := e.memory(env.settings[i].muxChannel);
    if m.ClampMemory? && m.dual then env.SecondaryName(e, i) else ""
  }

  /** The secondary channel that the channel of this name is given by this event. */
  ghost predicate GivenBy(env: Env, e: Event, name: string, second: string) {
    exists i: nat :: Named(env, i, name) && second == Chosen(env, e, i)
  }

  /** A clamp that stays keeps its secondary channel, and a new clamp has the one its memory asks for. */
  ghost predicate ValuesGiven(env: Env, r: Registry, e: Event, t: Registry) {
    forall name <- t.secondaryOf ::
      if name in r.secondaryOf then t.secondaryOf[name] == r.secondaryOf[name] else GivenBy(env, e, name, t.secondaryOf[name])
  }

  ghost predicate StatusAt(env: Env, r: Registry, e: Event, k: nat, status: Bits) {
    status == (r.status - PlugBits(env, UpTo(Leaving(env, r, e), k))) + PlugBits(env, UpTo(Joining(env, r, e), k))
  }

  ghost predicate ClampsAt(env: Env, r: Registry, e: Event, k: nat, clamps: set<string>) {
    clamps == (r.secondaryOf.Keys - Image(UpTo(Leaving(env, r, e), k), Called(env, e)))
              + Image(UpTo(Joining(env, r, e), k), Registered(env))
  }

  /** The registry after the first k channels have been visited. */
  ghost predicate At(env: Env, r: Registry, e: Event, k: nat, t: Registry) {
    && StatusAt(env, r, e, k, t.status) && ClampsAt(env, r, e, k, t.secondaryOf.Keys)
    && ValuesGiven(env, r, e, t) && SecondsAgree(t)
  }

  lemma UpToNext(s: set<nat>, k: nat)
    ensures UpTo(s, k + 1) == if k in s then UpTo(s, k) + {k} else UpTo(s, k)
  {
  }

  lemma ImageNext(s: set<nat>, k: nat, f: nat -> string)
    ensures Image(s + {k}, f) == Image(s, f) + {f(k)}
  {
    assert k in s + {k};
    forall name | name in Image(s, f) ensures name in Image(s + {k}, f) {
      var i :| i in s && f(i) == name;
      assert i in s + {k};
    }
  }

  lemma PlugBitsNext(env: Env, s: set<nat>, k: nat)
    ensures PlugBits(env, s + {k}) == PlugBits(env, s) + {PlugBit(env, k)}
  {
    assert k in s + {k};
    forall bit | bit in PlugBits(env, s) ensures bit in PlugBits(env, s + {k}) {
      var i :| i in s && PlugBit(env, i) == bit;
      assert i in s + {k};
    }
  }

  lemma SecondsAdded(m: map<string, string>, name: string, second: string)
    requires name !in m
    ensures Seconds(m[name := second]) == Seconds(m) + NonEmpty(second)
  {
    var t := m[name := second];
    forall n | n in m ensures t[n] == m[n] && n in t {
    }
    assert name in t && t[name] == second;
  }

  lemma SecondsRemoved(m: map<string, string>, name: string)
    requires name in m && SecondsApart(m)
    ensures Seconds(m - {name}) == Seconds(m) - NonEmpty(m[name]) && SecondsApart(m - {name})
  {
    var t := m - {name};
    forall n | n in t ensures t[n] == m[n] && n in m {
    }
    forall s | s in Seconds(m) - NonEmpty(m[name]) ensures s in Seconds(t) {
      var n :| n in m && m[n] != "" && m[n] == s;
      assert n in t;
    }
  }

  /** A clamp leaves under whatever name is registered. */
  lemma LeaveKeeps(env: Env, r: Registry, e: Event, t: Registry, name: string, bit: int)
    requires name in t.secondaryOf && ValuesGiven(env, r, e, t) && SecondsAgree(t)
    ensures var u := HandleClampDisconnected(t, name, bit);
            && u.status == t.status - {bit} && u.secondaryOf.Keys == t.secondaryOf.Keys - {name}
            && ValuesGiven(env, r, e, u) && SecondsAgree(u)
  {
    hide GivenBy, Seconds, SecondsApart, NonEmpty;
    SecondsRemoved(t.secondaryOf, name);
    var u := HandleClampDisconnected(t, name, bit);
    assert u.secondaryOf == t.secondaryOf - {name};
    forall n | n in u.secondaryOf
      ensures if n in r.secondaryOf then u.secondaryOf[n] == r.secondaryOf[n] else GivenBy(env, e, n, u.secondaryOf[n])
    {
      assert n in t.secondaryOf && u.secondaryOf[n] == t.secondaryOf[n];
    }
  }

  lemma JoinSecond(env: Env, r: Registry, e: Event, t: Registry, k: nat, dual: bool)
    requires env.WellWired() && ValuesGiven(env, r, e, t) && SecondsFresh(env, r, e)
    requires env.Watched(k) && env.settings[k].nameMx !in t.secondaryOf && env.settings[k].nameMx !in r.secondaryOf
    ensures var second := if dual then env.SecondaryName(e, k) else "";
            forall n <- t.secondaryOf :: t.secondaryOf[n] != second || second == ""
  {
    hide Env.SecondaryName;
    forall n | n in t.secondaryOf && dual ensures t.secondaryOf[n] != env.SecondaryName(e, k) || env.SecondaryName(e, k) == "" {
      if n !in r.secondaryOf {
        var i: nat :| Named(env, i, n) && t.secondaryOf[n] == Chosen(env, e, i);
        assert i != k;
      }
    }
  }

  lemma ApartWith(m: map<string, string>, name: string, second: string)
    requires SecondsApart(m) && forall n <- m :: m[n] != second || second == ""
    ensures SecondsApart(m[name := second])
  {
  }

  lemma JoinGives(env: Env, r: Registry, e: Event, t: Registry, k: nat, dual: bool)
    requires ValuesGiven(env, r, e, t) && env.Watched(k) && env.settings[k].plugBit < 16
    requires e.memory(env.settings[k].muxChannel) == ClampMemory(dual)
    requires env.settings[k].nameMx !in r.secondaryOf
    ensures ValuesGiven(env, r, e, AddClamp(t, env, e, k, dual))
  {
    hide Env.SecondaryName, NonEmpty;
    var name, second := env.settings[k].nameMx, if dual then env.SecondaryName(e, k) else "";
    var u := AddClamp(t, env, e, k, dual);
    assert Named(env, k, name) && second == Chosen(env, e, k);
    hide Named, Chosen, AddClamp;
    forall n | n in u.secondaryOf
      ensures if n in r.secondaryOf then u.secondaryOf[n] == r.secondaryOf[n] else GivenBy(env, e, n, u.secondaryOf[n])
    {
      JoinValue(env, e, t, k, dual);
    }
  }

  lemma JoinValue(env: Env, e: Event, t: Registry, k: nat, dual: bool)
    requires env.Watched(k) && env.settings[k].plugBit < 16
    ensures var u, second := AddClamp(t, env, e, k, dual), if dual then env.SecondaryName(e, k) else "";
            && u.secondaryOf == t.secondaryOf[env.settings[k].nameMx := second]
            && u.status == t.status + {env.settings[k].plugBit}
            && u.secondary == t.secondary + NonEmpty(second) && u.announced == u.secondaryOf.Keys + u.secondary
  {
    hide Env.SecondaryName, NonEmpty;
  }

  lemma JoinAgrees(env: Env, e: Event, t: Registry, k: nat, dual: bool)
    requires env.Watched(k) && env.settings[k].plugBit < 16 && SecondsAgree(t) && env.settings[k].nameMx !in t.secondaryOf
    requires var second := if dual then env.SecondaryName(e, k) else "";
             forall n <- t.secondaryOf :: t.secondaryOf[n] != second || second == ""
    ensures SecondsAgree(AddClamp(t, env, e, k, dual))
  {
    hide Env.SecondaryName, Seconds, SecondsApart, NonEmpty, AddClamp;
    var name, second := env.settings[k].nameMx, if dual then env.SecondaryName(e, k) else "";
    JoinValue(env, e, t, k, dual);
    ApartWith(t.secondaryOf, name, second);
    SecondsAdded(t.secondaryOf, name, second);
  }

  lemma JoinKeeps(env: Env, r: Registry, e: Event, t: Registry, k: nat, dual: bool)
    requires env.WellWired() && ValuesGiven(env, r, e, t) && SecondsAgree(t) && SecondsFresh(env, r, e)
    requires env.Watched(k) && env.settings[k].plugBit < 16
    requires e.memory(env.settings[k].muxChannel) == ClampMemory(dual)
    requires env.settings[k].nameMx !in t.secondaryOf && env.settings[k].nameMx !in r.secondaryOf
    ensures var u := AddClamp(t, env, e, k, dual);
            && u.status == t.status + {env.settings[k].plugBit}
            && u.secondaryOf.Keys == t.secondaryOf.Keys + {env.settings[k].nameMx}
            && ValuesGiven(env, r, e, u) && SecondsAgree(u)
  {
    hide Env.SecondaryName, Env.WellWired, SecondsFresh, ValuesGiven, SecondsAgree, AddClamp, NonEmpty;
    JoinSecond(env, r, e, t, k, dual);
    JoinGives(env, r, e, t, k, dual);
    JoinAgrees(env, e, t, k, dual);
    JoinValue(env, e, t, k, dual);
  }

  lemma NamesAreRegistered(env: Env, r: Registry, e: Event)
    requires BitsMeanClamps(env, r)
    ensures forall i <- Leaving(env, r, e) :: Registered(env)(i) in r.secondaryOf
  {
  }

  /** What leaves is found: registered, and not taken away by an earlier channel. */
  lemma LeavingIsFound(env: Env, r: Registry, e: Event, t: Registry, k: nat)
    requires env.WellWired() && Agree(env, r) && NamesMatch(env, r, e) && At(env, r, e, k, t) && k in Leaving(env, r, e)
    ensures Called(env, e)(k) in t.secondaryOf && Called(env, e)(k) in r.secondaryOf
  {
    hide ValuesGiven, SecondsAgree, AllOwned, Env.SenseName, StatusAt, Env.WellWired, NamesMatch, Env.Watched;
    CalledOnce(env, r, e);
    NamesAreRegistered(env, r, e);
    var s, f, g := Leaving(env, r, e), Called(env, e), Registered(env);
    assert f(k) in Image(s, f);
    var i :| i in s && g(i) == f(k);
    hide Leaving, Called, Registered;
    forall j | j in UpTo(s, k) ensures f(j) != f(k) {
    }
  }

  lemma JoiningIsNew(env: Env, r: Registry, e: Event, t: Registry, k: nat)
    requires env.WellWired() && Agree(env, r) && At(env, r, e, k, t) && k in Joining(env, r, e)
    ensures Registered(env)(k) !in t.secondaryOf && Registered(env)(k) !in r.secondaryOf
  {
    hide ValuesGiven, SecondsAgree, AllOwned, Env.SenseName;
    var s, g := Joining(env, r, e), Registered(env);
    assert g(k) !in r.secondaryOf;
    forall j | j in UpTo(s, k) ensures g(j) != g(k) {
      assert env.Watched(j) && env.Watched(k) && j < k;
    }
  }

  lemma LeavingJoiningApart(env: Env, r: Registry, e: Event, k: nat)
    requires env.WellWired() && Agree(env, r) && k in Leaving(env, r, e)
    ensures k !in Joining(env, r, e)
    ensures forall j <- Joining(env, r, e) :: PlugBit(env, j) != PlugBit(env, k)
    ensures forall j <- Joining(env, r, e) :: Registered(env)(j) !in r.secondaryOf
  {
    hide Env.SenseName;
  }

  lemma StatusWithout(env: Env, r: Registry, e: Event, status: Bits, k: nat)
    requires StatusAt(env, r, e, k, status) && k in Leaving(env, r, e) && k !in Joining(env, r, e)
    requires forall j <- Joining(env, r, e) :: PlugBit(env, j) != PlugBit(env, k)
    ensures StatusAt(env, r, e, k + 1, status - {PlugBit(env, k)})
  {
    var l, j := Leaving(env, r, e), Joining(env, r, e);
    UpToNext(l, k);
    UpToNext(j, k);
    PlugBitsNext(env, UpTo(l, k), k);
    hide Leaving, Joining, PlugBit;
    assert PlugBit(env, k) !in PlugBits(env, UpTo(j, k));
  }

  lemma ClampsWithout(env: Env, r: Registry, e: Event, clamps: set<string>, k: nat)
    requires ClampsAt(env, r, e, k, clamps) && k in Leaving(env, r, e) && k !in Joining(env, r, e)
    requires forall j <- Joining(env, r, e) :: Registered(env)(j) != Called(env, e)(k)
    ensures ClampsAt(env, r, e, k + 1, clamps - {Called(env, e)(k)})
  {
    var l, j, f, g := Leaving(env, r, e), Joining(env, r, e), Called(env, e), Registered(env);
    UpToNext(l, k);
    UpToNext(j, k);
    ImageNext(UpTo(l, k), k, f);
    hide Leaving, Joining, Called, Registered;
    assert f(k) !in Image(UpTo(j, k), g);
  }

  lemma StatusWith(env: Env, r: Registry, e: Event, status: Bits, k: nat)
    requires StatusAt(env, r, e, k, status) && k in Joining(env, r, e) && k !in Leaving(env, r, e)
    ensures StatusAt(env, r, e, k + 1, status + {PlugBit(env, k)})
  {
    var l, j := Leaving(env, r, e), Joining(env, r, e);
    UpToNext(l, k);
    UpToNext(j, k);
    PlugBitsNext(env, UpTo(j, k), k);
    hide Leaving, Joining, PlugBit, PlugBits, UpTo;
  }

  lemma ClampsWith(env: Env, r: Registry, e: Event, clamps: set<string>, k: nat)
    requires ClampsAt(env, r, e, k, clamps) && k in Joining(env, r, e) && k !in Leaving(env, r, e)
    ensures ClampsAt(env, r, e, k + 1, clamps + {Registered(env)(k)})
  {
    var l, j, f, g := Leaving(env, r, e), Joining(env, r, e), Called(env, e), Registered(env);
    UpToNext(l, k);
    UpToNext(j, k);
    ImageNext(UpTo(j, k), k, g);
    hide Leaving, Joining, Called, Registered, Image, UpTo;
  }

  lemma StepLeaving(env: Env, r: Registry, e: Event, t: Registry, k: nat)
    requires env.WellWired() && Agree(env, r) && NamesMatch(env, r, e) && At(env, r, e, k, t)
    requires k in Leaving(env, r, e)
    ensures Called(env, e)(k) != ""
    ensures At(env, r, e, k + 1, HandleClampDisconnected(t, Called(env, e)(k), PlugBit(env, k)))
  {
    hide HandleClampDisconnected, StatusAt, ClampsAt, ValuesGiven, SecondsAgree, Agree, Env.WellWired, Leaving, Called, PlugBit;
    LeavingIsFound(env, r, e, t, k);
    LeavingJoiningApart(env, r, e, k);
    hide Joining, Registered;
    LeaveKeeps(env, r, e, t, Called(env, e)(k), PlugBit(env, k));
    StatusWithout(env, r, e, t.status, k);
    ClampsWithout(env, r, e, t.secondaryOf.Keys, k);
  }

  lemma StepJoining(env: Env, r: Registry, e: Event, t: Registry, k: nat)
    requires env.WellWired() && Agree(env, r) && SecondsFresh(env, r, e) && At(env, r, e, k, t)
    requires k in Joining(env, r, e)
    ensures At(env, r, e, k + 1, AddClamp(t, env, e, k, e.memory(env.settings[k].muxChannel).dual))
  {
    hide Env.WellWired, Agree, SecondsFresh, StatusAt, ClampsAt, ValuesGiven, SecondsAgree, AddClamp, Env.SenseName;
    JoiningIsNew(env, r, e, t, k);
    JoinKeeps(env, r, e, t, k, e.memory(env.settings[k].muxChannel).dual);
    StatusWith(env, r, e, t.status, k);
    ClampsWith(env, r, e, t.secondaryOf.Keys, k);
  }

  lemma StepIdle(env: Env, r: Registry, e: Event, t: Registry, k: nat)
    requires At(env, r, e, k, t) && k !in Leaving(env, r, e) && k !in Joining(env, r, e)
    ensures At(env, r, e, k + 1, t)
  {
    UpToNext(Leaving(env, r, e), k);
    UpToNext(Joining(env, r, e), k);
    hide UpTo, Leaving, Joining, ValuesGiven, SecondsAgree;
  }

  lemma NothingVisited(env: Env, r: Registry, e: Event)
    requires SecondsAgree(r)
    ensures At(env, r, e, 0, r)
  {
    assert UpTo(Leaving(env, r, e), 0) == {} && UpTo(Joining(env, r, e), 0) == {};
    hide SecondsAgree, Leaving, Joining;
  }

  lemma SecondsDo(env: Env, r: Registry)
    requires Agree(env, r)
    ensures SecondsAgree(r)
  {
    hide BitsMeanClamps, AllOwned, SecondsAgree;
  }

  lemma {:induction false} VisitedAt(env: Env, r: Registry, e: Event, k: nat)
    requires env.WellWired() && env.Names(e) && Agree(env, r) && SecondsFresh(env, r, e) && NamesMatch(env, r, e)
    requires k <= |env.settings|
    ensures At(env, r, e, k, ActualizeFirst(r, env, e, Changed(e.mask, r.status), k))
  {
    hide At, Env.WellWired, Env.Names, Env.Watched, Agree, SecondsFresh, NamesMatch, ActualizeOne, Changed;
    if k == 0 {
      SecondsDo(env, r);
      NothingVisited(env, r, e);
    } else {
      VisitedAt(env, r, e, k - 1);
      NextIsUnvisited(env, r, e, k - 1);
      NextAt(env, r, e, ActualizeFirst(r, env, e, Changed(e.mask, r.status), k - 1), k - 1);
    }
  }

  lemma LeavingOrJoining(env: Env, r: Registry, e: Event, k: nat)
    requires k < |env.settings|
    ensures k in Leaving(env, r, e) <==> Leaves(env, r, e, k)
    ensures k in Joining(env, r, e) <==> Joins(env, r, e, k)
    ensures Called(env, e)(k) == env.SenseName(e, k) && PlugBit(env, k) == env.settings[k].plugBit
  {
    hide Leaves, Joins, Env.SenseName;
  }

  lemma NextAt(env: Env, r: Registry, e: Event, t: Registry, k: nat)
    requires env.WellWired() && env.Names(e) && Agree(env, r) && SecondsFresh(env, r, e) && NamesMatch(env, r, e)
    requires k < |env.settings| && At(env, r, e, k, t)
    requires env.Watched(k) ==> (env.settings[k].plugBit in t.status <==> env.settings[k].plugBit in r.status)
    ensures At(env, r, e, k + 1, ActualizeOne(t, env, e, Changed(e.mask, r.status), k))
  {
    VisitIs(env, r, e, t, k);
    LeavingOrJoining(env, r, e, k);
    hide At, Env.WellWired, Agree, SecondsFresh, NamesMatch, ActualizeOne, Changed, AddClamp, HandleClampDisconnected, Leaves,
         Joins, Env.SenseName;
    if k in Leaving(env, r, e) {
      StepLeaving(env, r, e, t, k);
    } else if k in Joining(env, r, e) {
      StepJoining(env, r, e, t, k);
    } else {
      StepIdle(env, r, e, t, k);
    }
  }

  lemma OwnPlugBit(env: Env, s: set<nat>, i: nat)
    requires env.WellWired() && env.Watched(i) && forall j <- s :: env.Watched(j)
    ensures env.settings[i].plugBit in PlugBits(env, s) <==> i in s
  {
    forall j | j in s && PlugBit(env, j) == env.settings[i].plugBit ensures j == i {
      assert i < j || j < i || i == j;
    }
  }

  lemma OwnName(env: Env, s: set<nat>, i: nat)
    requires env.WellWired() && env.Watched(i) && forall j <- s :: env.Watched(j)
    ensures env.settings[i].nameMx in Image(s, Registered(env)) <==> i in s
  {
    if i in s {
      assert Registered(env)(i) == env.settings[i].nameMx;
    }
    forall j | j in s && Registered(env)(j) == env.settings[i].nameMx ensures j == i {
      assert i < j || j < i || i == j;
    }
  }

  lemma AllVisited(env: Env, r: Registry, e: Event)
    ensures UpTo(Leaving(env, r, e), |env.settings|) == Leaving(env, r, e)
    ensures UpTo(Joining(env, r, e), |env.settings|) == Joining(env, r, e)
    ensures forall i <- Leaving(env, r, e) + Joining(env, r, e) :: env.Watched(i)
  {
    hide Env.SenseName;
  }

  /** The registry after one event: the bits that stay plugged and those that join, and the clamps that do not leave and
      those that join. */
  lemma ActualizedIs(env: Env, r: Registry, e: Event)
    requires env.WellWired() && env.Names(e) && Agree(env, r) && SecondsFresh(env, r, e) && NamesMatch(env, r, e)
    ensures var t := Actualize(r, env, e);
            && t.status == (r.status - PlugBits(env, Leaving(env, r, e))) + PlugBits(env, Joining(env, r, e))
            && t.secondaryOf.Keys == (r.secondaryOf.Keys - Image(Leaving(env, r, e), Registered(env)))
                                     + Image(Joining(env, r, e), Registered(env))
            && ValuesGiven(env, r, e, t) && SecondsAgree(t)
  {
    hide Env.WellWired, Env.Names, Agree, SecondsFresh, NamesMatch, Leaving, Joining, PlugBits, Image, UpTo, ActualizeFirst,
         ValuesGiven, SecondsAgree, Changed;
    VisitedAt(env, r, e, |env.settings|);
    AllVisited(env, r, e);
    CalledOnce(env, r, e);
  }

  lemma PluggedStay(env: Env, r: Registry, e: Event)
    requires env.WellWired() && Agree(env, r)
    ensures r.status - PlugBits(env, Leaving(env, r, e)) == r.status * e.mask
    ensures PlugBits(env, Joining(env, r, e)) <= e.mask
  {
    hide Env.SenseName;
    forall bit | bit in r.status ensures bit in PlugBits(env, Leaving(env, r, e)) <==> bit !in e.mask {
      var i: nat :| OnBit(env, i, bit);
      AllVisited(env, r, e);
      OwnPlugBit(env, Leaving(env, r, e), i);
    }
  }

  lemma BitsStillMeanClamps(env: Env, r: Registry, e: Event, t: Registry)
    requires env.WellWired() && BitsMeanClamps(env, r)
    requires t.status == (r.status - PlugBits(env, Leaving(env, r, e))) + PlugBits(env, Joining(env, r, e))
    requires t.secondaryOf.Keys == (r.secondaryOf.Keys - Image(Leaving(env, r, e), Registered(env)))
                                   + Image(Joining(env, r, e), Registered(env))
    ensures BitsMeanClamps(env, t)
  {
    hide Env.WellWired, Env.Watched, Leaving, Joining, PlugBits, Image, Registered;
    AllVisited(env, r, e);
    forall i: nat | env.Watched(i)
      ensures i < |env.settings| && (env.settings[i].plugBit in t.status <==> env.settings[i].nameMx in t.secondaryOf)
    {
      WatchedIsConfigured(env, i);
      OwnPlugBit(env, Leaving(env, r, e), i);
      OwnPlugBit(env, Joining(env, r, e), i);
      OwnName(env, Leaving(env, r, e), i);
      OwnName(env, Joining(env, r, e), i);
      assert env.settings[i].nameMx in t.secondaryOf <==> env.settings[i].nameMx in t.secondaryOf.Keys;
    }
  }

  lemma WatchedIsConfigured(env: Env, i: nat)
    ensures env.Watched(i) ==> i < |env.settings|
  {
  }

  lemma StillOwned(env: Env, r: Registry, e: Event, t: Registry)
    requires AllOwned(env, r)
    requires t.status <= r.status + PlugBits(env, Joining(env, r, e))
    requires t.secondaryOf.Keys <= r.secondaryOf.Keys + Image(Joining(env, r, e), Registered(env))
    ensures AllOwned(env, t)
  {
    hide Env.SenseName;
    forall bit | bit in t.status ensures exists i: nat :: OnBit(env, i, bit) {
      if bit !in r.status {
        var i :| i in Joining(env, r, e) && PlugBit(env, i) == bit;
        assert OnBit(env, i, bit);
      }
    }
    forall name | name in t.secondaryOf ensures exists i: nat :: Named(env, i, name) {
      if name !in r.secondaryOf {
        assert name in t.secondaryOf.Keys;
        var i :| i in Joining(env, r, e) && Registered(env)(i) == name;
        assert Named(env, i, name);
      }
    }
  }

  /** One event whose clamps leave by their names: afterwards the registry agrees with itself, and a status bit is set
      exactly when its channel is plugged and was a clamp before or has a memory and a name now. */
  lemma ActualizedExactly(env: Env, r: Registry, e: Event)
    requires env.WellWired() && env.Names(e) && Agree(env, r) && SecondsFresh(env, r, e) && NamesMatch(env, r, e)
    ensures var t := Actualize(r, env, e);
            && Agree(env, t) && ValuesGiven(env, r, e, t)
            && t.status == r.status * e.mask + PlugBits(env, Joining(env, r, e)) && t.status <= e.mask
  {
    hide Env.WellWired, Env.Names, SecondsFresh, NamesMatch, Leaving, Joining, PlugBits, Image, Actualize, BitsMeanClamps,
         AllOwned, SecondsAgree, ValuesGiven;
    ActualizedIs(env, r, e);
    PluggedStay(env, r, e);
    BitsStillMeanClamps(env, r, e, Actualize(r, env, e));
    StillOwned(env, r, e, Actualize(r, env, e));
  }

  /** One event keeps the registry in agreement, and the status word inside the mask, exactly when every clamp that
      leaves is called by its registered name. */
  lemma ActualizedAgreesIff(env: Env, r: Registry, e: Event)
    requires env.WellWired() && env.Names(e) && Agree(env, r) && SecondsFresh(env, r, e)
    ensures var t := Actualize(r, env, e); Agree(env, t) && t.status <= e.mask <==> NamesMatch(env, r, e)
  {
    hide Env.WellWired, Env.Names, Agree, SecondsFresh, NamesMatch, Joining, PlugBits, Actualize;
    if NamesMatch(env, r, e) {
      ActualizedExactly(env, r, e);
    } else if Agree(env, Actualize(r, env, e)) && Actualize(r, env, e).status <= e.mask {
      AgreementNeedsNames(env, r, e);
    }
  }

  /** One event whose clamps leave by their names: a clamp that stays keeps its secondary channel, and a new one has the
      one its memory asks for. */
  lemma ActualizedSecondaries(env: Env, r: Registry, e: Event, i: nat)
    requires env.WellWired() && env.Names(e) && Agree(env, r) && SecondsFresh(env, r, e) && NamesMatch(env, r, e)
    requires env.Watched(i) && env.settings[i].plugBit in Actualize(r, env, e).status
    ensures var t, name := Actualize(r, env, e), env.settings[i].nameMx;
            && name in t.secondaryOf
            && (if env.settings[i].plugBit in r.status
                then name in r.secondaryOf && t.secondaryOf[name] == r.secondaryOf[name]
                else t.secondaryOf[name] == Chosen(env, e, i))
  {
    ActualizedExactly(env, r, e);
    hide Actualize, SecondsFresh, NamesMatch, AllOwned, SecondsAgree, Chosen;
    var t, name := Actualize(r, env, e), env.settings[i].nameMx;
    if name !in r.secondaryOf {
      var j: nat :| Named(env, j, name) && t.secondaryOf[name] == Chosen(env, e, j);
      assert j < i || j == i || i < j;
    }
  }

  lemma {:induction false} NothingToDo(env: Env, r: Registry, e: Event, change: set<int>, k: nat)
    requires k <= |env.settings| && env.Names(e)
    requires forall i: nat :: env.Watched(i) && env.settings[i].plugBit < 16 && env.settings[i].plugBit in change ==>
               env.settings[i].plugBit !in r.status && (env.SenseName(e, i) != "" ==> !e.memory(env.settings[i].muxChannel).ClampMemory?)
    ensures ActualizeFirst(r, env, e, change, k) == r
  {
    if k == 0 {
    } else {
      NothingToDo(env, r, e, change, k - 1);
      UnwatchedIsIdle(env, r, e, change, k - 1);
    }
  }

  /** Repeating a mask with the same memories plugged changes nothing. */
  lemma RepeatedMaskIsIdle(env: Env, r: Registry, e: Event)
    requires env.WellWired() && env.Names(e) && Agree(env, r) && SecondsFresh(env, r, e) && NamesMatch(env, r, e)
    ensures var t := Actualize(r, env, e); Actualize(t, env, e) == t
  {
    ActualizedExactly(env, r, e);
    AllVisited(env, r, e);
    hide SecondsFresh, NamesMatch, Agree, ActualizeFirst, Env.SenseName, Env.Names, Env.WellWired, ValuesGiven, PlugBits;
    var t := Actualize(r, env, e);
    forall i: nat | env.Watched(i) && env.settings[i].plugBit < 16 && env.settings[i].plugBit in Changed(e.mask, t.status)
      ensures env.settings[i].plugBit !in t.status
      ensures env.SenseName(e, i) != "" ==> !e.memory(env.settings[i].muxChannel).ClampMemory?
    {
      OwnPlugBit(env, Joining(env, r, e), i);
    }
    NothingToDo(env, t, e, Changed(e.mask, t.status), |env.settings|);
  }
}
