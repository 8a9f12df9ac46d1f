/** Hot-pluggable controllers: plug masks and timer expiries interleave, and the devices may answer anything. */
module HotplugRuns {
  import opened SenseSettings

  /** The answer to one bus access. */
  datatype Answer = Answer(done: bool, text: string)

  type Answers = nat -> Answer

  datatype Stopper = Stopper(stopped: bool, timerRunning: bool)

  datatype Pending = Pending(nameMx: string, muxChannel: int, stopper: Stopper)

  /** Signals are recorded as the controller channels a receiver of the signal finds. */
  datatype State = State(pending: map<int, Pending>, controllers: map<int, string>, without: set<int>,
                         signals: seq<set<int>>, step: nat)
  {
    predicate Known(c: int) {
      c in pending || c in controllers || c in without
    }
  }

  const INIT := State(map[], map[], {}, [], 0)

  /** Shifting a bit out of the 16-bit word leaves an empty bit mask. */
  predicate Plugged(mask: Bits, setting: Setting) {
    setting.plugBit in mask
  }

  /** Reads the version, then looks for an EMOB controller and its sub type. */
  function Probed(s: State, answers: Answers, c: int, nameMx: string): State {
    var version := answers(s.step);
    if !version.done || version.text == "" then s.(without := s.without + {c}, step := s.step + 1)
    else if !answers(s.step + 1).done then s.(step := s.step + 2)
    else
      var subType := answers(s.step + 2);
      if !subType.done || subType.text == "" then s.(step := s.step + 3)
      else
        var controllers := s.controllers[c := nameMx];
        s.(controllers := controllers, signals := s.signals + [controllers.Keys], step := s.step + 3)
  }

  /** The bootloader is assumed inactive. */
  function StopAssumed(s: State, answers: Answers, c: int): State {
    if c !in s.pending then s
    else Probed(s.(pending := s.pending - {c}), answers, c, s.pending[c].nameMx)
  }

  function StartAdding(s: State, answers: Answers, setting: Setting): State {
    var c, booted := setting.ctrlChannel, answers(s.step).done;
    var stopper := Stopper(!booted, booted);
    var waiting := s.(pending := s.pending[c := Pending(setting.nameMx, setting.muxChannel, stopper)], step := s.step + 1);
    if booted then waiting else StopAssumed(waiting, answers, c)
  }

  function Remove(s: State, c: int): State {
    var t := s.(without := s.without - {c}, pending := s.pending - {c});
    if c in s.controllers then
      var controllers := s.controllers - {c};
      t.(controllers := controllers, signals := s.signals + [controllers.Keys])
    else t
  }

  function ActualizeOne(s: State, answers: Answers, mask: Bits, setting: Setting): State {
    if setting.plugBit < 0 then s
    else if Plugged(mask, setting) then
      if s.Known(setting.ctrlChannel) then s else StartAdding(s, answers, setting)
    else Remove(s, setting.ctrlChannel)
  }

  function Actualize(s: State, answers: Answers, mask: Bits, settings: seq<Setting>): State
    decreases |settings|
  {
    if settings == [] then s
    else
      var k := |settings| - 1;
      ActualizeOne(Actualize(s, answers, mask, settings[..k]), answers, mask, settings[k])
  }

  /** A timer expires only while its stopper is alive, and the stopper lives as long as its channel is pending. */
  predicate MayExpire(s: State, c: int) {
    c in s.pending && s.pending[c].stopper.timerRunning
  }

  function Expire(s: State, answers: Answers, c: int): State {
    if MayExpire(s, c) then StopAssumed(s, answers, c) else s
  }

  datatype Event = MaskChanged(mask: Bits) | TimerExpired(ctrlChannel: int)

  function Step(s: State, answers: Answers, settings: seq<Setting>, e: Event): State {
    match e
    case MaskChanged(mask) => Actualize(s, answers, mask, settings)
    case TimerExpired(c) => Expire(s, answers, c)
  }

  function Run(answers: Answers, settings: seq<Setting>, events: seq<Event>): State
    decreases |events|
  {
    if events == [] then INIT
    else
      var k := |events| - 1;
      Step(Run(answers, settings, events[..k]), answers, settings, events[k])
  }

  function LastMask(events: seq<Event>): Bits {
    if events == [] then {}
    else
      var k := |events| - 1;
      if events[k].MaskChanged? then events[k].mask else LastMask(events[..k])
  }

  /** Every signal reports one channel more or one channel less than the one before. */
  predicate OneByOne(signals: seq<set<int>>) {
    signals == [] ||
    var k := |signals| - 1;
    OneByOne(signals[..k]) && OneApart(LastSignal(signals[..k]), signals[k])
  }

  predicate OneApart(a: set<int>, b: set<int>) {
    || (exists c <- b :: c !in a && b == a + {c})
    || (exists c <- a :: c !in b && b == a - {c})
  }

  function LastSignal(signals: seq<set<int>>): set<int> {
    if signals == [] then {} else signals[|signals| - 1]
  }

  /** The sets are disjoint, pending channels wait for a running timer, and the signals follow the controllers. */
  ghost predicate Inv(s: State) {
    && s.pending.Keys !! s.controllers.Keys && s.pending.Keys !! s.without && s.controllers.Keys !! s.without
    && (forall c <- s.pending :: s.pending[c].stopper == Stopper(false, true))
    && OneByOne(s.signals) && LastSignal(s.signals) == s.controllers.Keys
  }

  lemma SignalAppended(signals: seq<set<int>>, keys: set<int>)
    requires OneByOne(signals) && OneApart(LastSignal(signals), keys)
    ensures OneByOne(signals + [keys])
  {
    assert (signals + [keys])[..|signals|] == signals;
  }

  /** What a stop does, whether the timer ran or not. */
  lemma StopAssumedKeeps(s: State, answers: Answers, c: int)
    requires c in s.pending && Inv(s.(pending := s.pending - {c})) && c !in s.controllers && c !in s.without
    ensures Inv(StopAssumed(s, answers, c))
    ensures forall d: int :: StopAssumed(s, answers, c).Known(d) ==> s.Known(d)
  {
    hide OneByOne;
    var r := StopAssumed(s, answers, c);
    if r.signals != s.signals {
      assert r.controllers.Keys == s.controllers.Keys + {c};
      assert c in r.controllers.Keys;
      SignalAppended(s.signals, r.controllers.Keys);
    }
  }

  lemma StartAddingKeeps(s: State, answers: Answers, setting: Setting)
    requires Inv(s) && !s.Known(setting.ctrlChannel)
    ensures Inv(StartAdding(s, answers, setting))
    ensures forall d: int :: StartAdding(s, answers, setting).Known(d) ==> s.Known(d) || d == setting.ctrlChannel
  {
    hide OneByOne, StopAssumed;
    var c, booted := setting.ctrlChannel, answers(s.step).done;
    var p := Pending(setting.nameMx, setting.muxChannel, Stopper(!booted, booted));
    var waiting := s.(pending := s.pending[c := p], step := s.step + 1);
    if !booted {
      assert waiting.pending - {c} == s.pending;
      StopAssumedKeeps(waiting, answers, c);
    }
  }

  lemma RemoveKeeps(s: State, c: int)
    requires Inv(s)
    ensures Inv(Remove(s, c)) && !Remove(s, c).Known(c)
    ensures forall d: int :: Remove(s, c).Known(d) ==> s.Known(d)
  {
    hide OneByOne;
    if c in s.controllers {
      var keys := (s.controllers - {c}).Keys;
      assert keys == s.controllers.Keys - {c};
      assert c in s.controllers.Keys;
      SignalAppended(s.signals, keys);
    }
  }

  /** The last setting of a channel that has a plug bit decides whether the channel counts as plugged. */
  predicate ChannelPlugged(settings: seq<Setting>, mask: Bits, c: int) {
    if settings == [] then false
    else
      var setting := settings[|settings| - 1];
      if setting.ctrlChannel == c && setting.plugBit >= 0 then Plugged(mask, setting)
      else ChannelPlugged(settings[..|settings| - 1], mask, c)
  }

  predicate HasBit(settings: seq<Setting>, c: int) {
    exists i :: 0 <= i < |settings| && settings[i].ctrlChannel == c && settings[i].plugBit >= 0
  }

  lemma HasBitOfPrefix(settings: seq<Setting>, c: int)
    requires settings != [] && HasBit(settings, c)
    ensures var k := |settings| - 1;
            HasBit(settings[..k], c) || (settings[k].ctrlChannel == c && settings[k].plugBit >= 0)
  {
    var k := |settings| - 1;
    var i :| 0 <= i < |settings| && settings[i].ctrlChannel == c && settings[i].plugBit >= 0;
    if i < k {
      assert settings[..k][i] == settings[i];
    }
  }

  /** One plug mask: whatever is known afterwards is plugged, or has no plug bit and was known before. */
  lemma {:induction false} ActualizeKeeps(s: State, answers: Answers, mask: Bits, settings: seq<Setting>)
    requires Inv(s)
    ensures Inv(Actualize(s, answers, mask, settings))
    ensures forall c: int :: Actualize(s, answers, mask, settings).Known(c) ==>
              if HasBit(settings, c) then ChannelPlugged(settings, mask, c) else s.Known(c)
    decreases |settings|
  {
    if settings == [] {
    } else {
      hide Inv, StartAdding, Remove, HasBit, Plugged;
      var k := |settings| - 1;
      var setting := settings[k];
      ActualizeKeeps(s, answers, mask, settings[..k]);
      var t := Actualize(s, answers, mask, settings[..k]);
      if setting.plugBit >= 0 {
        if !Plugged(mask, setting) {
          RemoveKeeps(t, setting.ctrlChannel);
        } else if !t.Known(setting.ctrlChannel) {
          StartAddingKeeps(t, answers, setting);
        }
      }
      var r := Actualize(s, answers, mask, settings);
      forall c: int | r.Known(c)
        ensures if HasBit(settings, c) then ChannelPlugged(settings, mask, c) else s.Known(c)
      {
        OneMoreSetting(settings, c);
      }
    }
  }

  lemma OneMoreSetting(settings: seq<Setting>, c: int)
    requires settings != []
    ensures var k := |settings| - 1;
            HasBit(settings, c) <==> HasBit(settings[..k], c) || (settings[k].ctrlChannel == c && settings[k].plugBit >= 0)
  {
    var k := |settings| - 1;
    if HasBit(settings, c) {
      HasBitOfPrefix(settings, c);
    }
    if HasBit(settings[..k], c) {
      var i :| 0 <= i < k && settings[..k][i].ctrlChannel == c && settings[..k][i].plugBit >= 0;
      assert settings[i] == settings[..k][i];
    }
  }

  lemma ExpireKeeps(s: State, answers: Answers, c: int)
    requires Inv(s)
    ensures Inv(Expire(s, answers, c))
    ensures forall d: int :: Expire(s, answers, c).Known(d) ==> s.Known(d)
  {
    hide OneByOne, StopAssumed;
    if MayExpire(s, c) {
      assert Inv(s.(pending := s.pending - {c}));
      StopAssumedKeeps(s, answers, c);
    }
  }

  /** Over every run: the three sets are disjoint, every known channel is plugged in the last mask, every pending
      channel has a running timer, and the signals are exactly the one-channel changes of the controllers. */
  lemma {:induction false} RunIsSafe(answers: Answers, settings: seq<Setting>, events: seq<Event>)
    ensures Inv(Run(answers, settings, events))
    ensures forall c: int :: Run(answers, settings, events).Known(c) ==> ChannelPlugged(settings, LastMask(events), c)
    decreases |events|
  {
    if events == [] {
    } else {
      hide Inv, Actualize, Expire, HasBit, ChannelPlugged;
      var k := |events| - 1;
      var s := Run(answers, settings, events[..k]);
      RunIsSafe(answers, settings, events[..k]);
      match events[k]
      case MaskChanged(mask) =>
        ActualizeKeeps(s, answers, mask, settings);
        forall c: int | s.Known(c) ensures HasBit(settings, c) {
          PluggedHasBit(settings, LastMask(events[..k]), c);
        }
      case TimerExpired(c) =>
        ExpireKeeps(s, answers, c);
    }
  }

  lemma {:induction false} PluggedHasBit(settings: seq<Setting>, mask: Bits, c: int)
    requires ChannelPlugged(settings, mask, c)
    ensures HasBit(settings, c)
    decreases |settings|
  {
    var k := |settings| - 1;
    OneMoreSetting(settings, c);
    if !(settings[k].ctrlChannel == c && settings[k].plugBit >= 0) {
      PluggedHasBit(settings[..k], mask, c);
    }
  }

  predicate SameEntry(s: State, r: State, c: int) {
    && (c in s.pending <==> c in r.pending) && (c in s.pending ==> r.pending[c] == s.pending[c])
    && (c in s.controllers <==> c in r.controllers) && (c in s.controllers ==> r.controllers[c] == s.controllers[c])
    && (c in s.without <==> c in r.without)
  }

  lemma OneSettingKeepsEntry(s: State, answers: Answers, mask: Bits, setting: Setting, c: int)
    requires s.Known(c)
    requires setting.ctrlChannel == c && setting.plugBit >= 0 ==> Plugged(mask, setting)
    ensures SameEntry(s, ActualizeOne(s, answers, mask, setting), c)
  {
  }

  /** What a mask does not touch: a channel all of whose settings stay plugged keeps its entry. */
  lemma {:induction false} PluggedIsKept(s: State, answers: Answers, mask: Bits, settings: seq<Setting>, c: int)
    requires s.Known(c)
    requires forall i :: 0 <= i < |settings| && settings[i].ctrlChannel == c && settings[i].plugBit >= 0 ==>
               Plugged(mask, settings[i])
    ensures SameEntry(s, Actualize(s, answers, mask, settings), c)
    decreases |settings|
  {
    hide ActualizeOne;
    if settings == [] {
    } else {
      var k := |settings| - 1;
      forall i | 0 <= i < |settings[..k]| && settings[..k][i].ctrlChannel == c && settings[..k][i].plugBit >= 0
        ensures Plugged(mask, settings[..k][i])
      {
        assert settings[..k][i] == settings[i];
      }
      PluggedIsKept(s, answers, mask, settings[..k], c);
      OneSettingKeepsEntry(Actualize(s, answers, mask, settings[..k]), answers, mask, settings[k], c);
    }
  }

  /** Repeating a mask changes nothing, provided every plugged channel is known already. */
  lemma {:induction false} RepeatedMaskIsIdle(s: State, answers: Answers, mask: Bits, settings: seq<Setting>)
    requires forall i :: 0 <= i < |settings| && settings[i].plugBit >= 0 ==>
               (Plugged(mask, settings[i]) <==> s.Known(settings[i].ctrlChannel))
    ensures Actualize(s, answers, mask, settings) == s
    decreases |settings|
  {
    if settings == [] {
    } else {
      var k := |settings| - 1;
      forall i | 0 <= i < |settings[..k]| && settings[..k][i].plugBit >= 0
        ensures Plugged(mask, settings[..k][i]) <==> s.Known(settings[..k][i].ctrlChannel)
      {
        assert settings[..k][i] == settings[i];
      }
      RepeatedMaskIsIdle(s, answers, mask, settings[..k]);
      RemoveUnknown(s, settings[k].ctrlChannel);
    }
  }

  lemma RemoveUnknown(s: State, c: int)
    ensures !s.Known(c) ==> Remove(s, c) == s
  {
    if !s.Known(c) {
      assert s.pending - {c} == s.pending && s.without - {c} == s.without;
    }
  }

  /** The version was read. */
  predicate HasVersion(answers: Answers, step: nat) {
    answers(step).done && answers(step).text != ""
  }

  /** And so were an EMOB controller and its sub type. */
  predicate HasEmob(answers: Answers, step: nat) {
    HasVersion(answers, step) && answers(step + 1).done && answers(step + 2).done && answers(step + 2).text != ""
  }

  /** Where a plugged channel that is not known ends: it waits if its bootloader was stopped; otherwise it is a
      controller under its own name exactly when an EMOB answers completely, and no controller exactly when not even a
      version is read. No other channel is touched. */
  lemma PluggedIsProbed(s: State, answers: Answers, mask: Bits, setting: Setting)
    requires Inv(s) && Plugged(mask, setting) && setting.plugBit >= 0 && !s.Known(setting.ctrlChannel)
    ensures var c, r, booted := setting.ctrlChannel, ActualizeOne(s, answers, mask, setting), answers(s.step).done;
            && (c in r.pending <==> booted)
            && (booted ==> r.pending[c] == Pending(setting.nameMx, setting.muxChannel, Stopper(false, true)))
            && (c in r.controllers <==> !booted && HasEmob(answers, s.step + 1))
            && (c in r.controllers ==> r.controllers[c] == setting.nameMx)
            && (c in r.without <==> !booted && !HasVersion(answers, s.step + 1))
            && (forall d: int :: d != c ==> SameEntry(s, r, d))
  {
  }

  /** And where a pending channel ends when its timer expires. */
  lemma ExpiredIsProbed(s: State, answers: Answers, c: int)
    requires Inv(s) && c in s.pending
    ensures var r := Expire(s, answers, c);
            && c !in r.pending
            && (c in r.controllers <==> HasEmob(answers, s.step))
            && (c in r.controllers ==> r.controllers[c] == s.pending[c].nameMx)
            && (c in r.without <==> !HasVersion(answers, s.step))
            && (forall d: int :: d != c ==> SameEntry(s, r, d))
  {
  }

  /** A channel that reports a version but no EMOB sub type ends in none of the sets, so the next mask probes it again. */
  lemma VersionOnlyIsProbedAgain(s: State, answers: Answers, mask: Bits, setting: Setting)
    requires Inv(s) && Plugged(mask, setting) && setting.plugBit >= 0 && !s.Known(setting.ctrlChannel)
    requires !answers(s.step).done && answers(s.step + 1).done && answers(s.step + 1).text != ""
    requires !answers(s.step + 2).done || !answers(s.step + 3).done || answers(s.step + 3).text == ""
    ensures var r := ActualizeOne(s, answers, mask, setting);
            !r.Known(setting.ctrlChannel) && r.signals == s.signals && r.step > s.step
  {
  }
}
