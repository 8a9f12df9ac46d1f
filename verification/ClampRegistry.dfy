/** The registry of hot-plugged clamps: a status word, the live clamps by channel name and their secondary channels. */
module ClampRegistry {
  import opened MachineWords
  import opened SenseSettings

  /** What is found on a multiplexer channel: no memory, or a clamp with or without a secondary channel. */
  datatype Memory = NoMemory | ClampMemory(dual: bool)

  /** A plug mask, what the multiplexer channels hold then, and the names the sense interface gives to the control
      channels then. */
  datatype Event = Event(mask: Bits, memory: int -> Memory, names: u16 -> string)

  /** The configuration, and the channels that the sense interface ever has a name for. */
  datatype Env = Env(settings: seq<Setting>, used: set<nat>) {
    function SenseName(e: Event, i: nat): string
      requires i < |settings|
    {
      e.names(Wrap16(settings[i].ctrlChannel))
    }

    /** The control channel of the secondary is passed on as an 8-bit number. */
    function SecondaryName(e: Event, i: nat): string
      requires i < |settings|
    {
      e.names((settings[i].ctrlChannel - |settings| / 2) % 0x100)
    }

    predicate Watched(i: nat) {
      i < |settings| && i in used && settings[i].plugBit >= 0
    }

    /** Watched channels have plug bits and registered names of their own. */
    ghost predicate WellWired() {
      forall i: nat, j: nat :: i < j && Watched(i) && Watched(j) ==>
        settings[i].plugBit != settings[j].plugBit && settings[i].nameMx != settings[j].nameMx
    }

    ghost predicate Names(e: Event) {
      forall i: nat :: i < |settings| && SenseName(e, i) != "" ==> i in used
    }
  }

  datatype Registry = Registry(status: Bits, secondaryOf: map<string, string>, secondary: set<string>, announced: set<string>)

  const INIT := Registry({}, map[], {}, {})

  function Announce(r: Registry): Registry {
    r.(announced := r.secondaryOf.Keys + r.secondary)
  }

  function NonEmpty(name: string): set<string> {
    if name == "" then {} else {name}
  }

  function AddClamp(r: Registry, env: Env, e: Event, i: nat, dual: bool): Registry
    requires i < |env.settings| && 0 <= env.settings[i].plugBit < 16
  {
    var second := if dual then env.SecondaryName(e, i) else "";
    Announce(r.(status := r.status + {env.settings[i].plugBit},
                secondaryOf := r.secondaryOf[env.settings[i].nameMx := second],
                secondary := r.secondary + NonEmpty(second)))
  }

  function TryAddClamp(r: Registry, env: Env, e: Event, i: nat): Registry
    requires i < |env.settings| && 0 <= env.settings[i].plugBit < 16
  {
    var m := e.memory(env.settings[i].muxChannel);
    if m.ClampMemory? then AddClamp(r, env, e, i, m.dual) else r
  }

  function HandleClampDisconnected(r: Registry, channelName: string, plugBit: int): Registry {
    if channelName in r.secondaryOf then
      Announce(r.(status := r.status - {plugBit},
                  secondaryOf := r.secondaryOf - {channelName},
                  secondary := r.secondary - NonEmpty(r.secondaryOf[channelName])))
    else r
  }

  /** Shifting a bit out of the 16-bit word leaves an empty bit mask: such a channel never changes. */
  function ActualizeOne(r: Registry, env: Env, e: Event, change: set<int>, i: nat): Registry
    requires i < |env.settings|
  {
    var bit := env.settings[i].plugBit;
    if env.SenseName(e, i) == "" || bit < 0 || bit >= 16 || bit !in change then r
    else if bit !in r.status then TryAddClamp(r, env, e, i)
    else HandleClampDisconnected(r, env.SenseName(e, i), bit)
  }

  function ActualizeFirst(r: Registry, env: Env, e: Event, change: set<int>, k: nat): Registry
    requires k <= |env.settings|
  {
    if k == 0 then r else ActualizeOne(ActualizeFirst(r, env, e, change, k - 1), env, e, change, k - 1)
  }

  function Changed(a: set<int>, b: set<int>): set<int> {
    (a - b) + (b - a)
  }

  /** The changed bits are taken once, before the channels are visited. */
  function Actualize(r: Registry, env: Env, e: Event): Registry {
    ActualizeFirst(r, env, e, Changed(e.mask, r.status), |env.settings|)
  }

  function Run(env: Env, events: seq<Event>): Registry {
    if events == [] then INIT
    else Actualize(Run(env, events[..|events| - 1]), env, events[|events| - 1])
  }

  // ---------- agreement

  predicate OnBit(env: Env, i: nat, bit: int) {
    env.Watched(i) && env.settings[i].plugBit == bit
  }

  predicate Named(env: Env, i: nat, name: string) {
    env.Watched(i) && env.settings[i].plugBit < 16 && env.settings[i].nameMx == name
  }

  ghost predicate BitsMeanClamps(env: Env, r: Registry) {
    forall i: nat :: env.Watched(i) ==> (env.settings[i].plugBit in r.status <==> env.settings[i].nameMx in r.secondaryOf)
  }

  ghost predicate AllOwned(env: Env, r: Registry) {
    && (forall bit <- r.status :: exists i: nat :: OnBit(env, i, bit))
    && (forall name <- r.secondaryOf :: exists i: nat :: Named(env, i, name))
  }

  /** The secondary channels of the live clamps. */
  function Seconds(secondaryOf: map<string, string>): set<string> {
    set name <- secondaryOf | secondaryOf[name] != "" :: secondaryOf[name]
  }

  /** No two live clamps share a secondary channel. */
  predicate SecondsApart(secondaryOf: map<string, string>) {
    forall n <- secondaryOf, m <- secondaryOf :: n != m ==> secondaryOf[n] != secondaryOf[m] || secondaryOf[n] == ""
  }

  ghost predicate SecondsAgree(r: Registry) {
    && SecondsApart(r.secondaryOf) && r.secondary == Seconds(r.secondaryOf)
    && r.announced == r.secondaryOf.Keys + r.secondary
  }

  /** The status word, the clamps, the secondary channels and the announced list agree. */
  ghost predicate Agree(env: Env, r: Registry) {
    BitsMeanClamps(env, r) && AllOwned(env, r) && SecondsAgree(r)
  }

  // ---------- one event

  /** A registered channel that the mask no longer plugs. */
  predicate Leaves(env: Env, r: Registry, e: Event, i: nat) {
    env.Watched(i) && env.settings[i].plugBit in r.status && env.settings[i].plugBit !in e.mask
  }

  /** A channel that is plugged now, with a clamp's memory and a name. */
  predicate Joins(env: Env, r: Registry, e: Event, i: nat) {
    && env.Watched(i) && env.settings[i].plugBit < 16
    && env.settings[i].plugBit in e.mask && env.settings[i].plugBit !in r.status
    && env.SenseName(e, i) != "" && e.memory(env.settings[i].muxChannel).ClampMemory?
  }

  function Leaving(env: Env, r: Registry, e: Event): set<nat> {
    set i: nat | i < |env.settings| && Leaves(env, r, e, i)
  }

  /** The name a channel is called by now, and the one its clamp is registered under. */
  function Called(env: Env, e: Event): nat -> string {
    (i: nat) => if i < |env.settings| then env.SenseName(e, i) else ""
  }

  function Registered(env: Env): nat -> string {
    (i: nat) => if i < |env.settings| then env.settings[i].nameMx else ""
  }

  function Image(s: set<nat>, f: nat -> string): set<string> {
    set i <- s :: f(i)
  }

  /** Every channel that leaves has a name, and every clamp that leaves is called by its registered name: by its own
      channel, or by another one that leaves too. */
  predicate NamesMatch(env: Env, r: Registry, e: Event) {
    var leaving, called := Leaving(env, r, e), Called(env, e);
    forall i <- leaving :: called(i) != "" && Registered(env)(i) in Image(leaving, called)
  }

  /** The secondary channels that the names of this event would give are not in use by others. */
  ghost predicate SecondsFresh(env: Env, r: Registry, e: Event) {
    && (forall i: nat, j: nat :: env.Watched(i) && env.Watched(j) && i != j ==>
          env.SecondaryName(e, i) != env.SecondaryName(e, j) || env.SecondaryName(e, i) == "")
    && (forall i: nat, name <- r.secondaryOf :: env.Watched(i) && env.settings[i].nameMx != name ==>
          r.secondaryOf[name] != env.SecondaryName(e, i) || r.secondaryOf[name] == "")
  }
}
