/** The container of hot-pluggable controllers and its bootloader stoppers. */
module HotPluggableControllers {
  import opened HotplugRuns
  import opened SenseSettings

  /** The devices on the bus. One answer per access. */
  class I2cDevices {
    var step: nat
    const answers: Answers

    constructor (answers: Answers)
      ensures this.answers == answers && step == 0
    {
      this.answers, step := answers, 0;
    }

    method Access() returns (r: Answer)
      modifies this
      ensures r == answers(old(step)) && step == old(step) + 1
    {
      r := answers(step);
      step := step + 1;
    }
  }

  /** Stops the bootloader of one channel and waits for its application to start. */
  class I2cCtlBootloaderStopper {
    const channelId: int
    const muxChannel: int
    var appStartTimer: bool
    var bootloaderStopped: bool

    constructor (channelId: int, muxChannel: int)
      ensures this.channelId == channelId && this.muxChannel == muxChannel && Value() == Stopper(false, false)
    {
      this.channelId, this.muxChannel := channelId, muxChannel;
      appStartTimer, bootloaderStopped := false, false;
    }

    function Value(): Stopper
      reads this
    {
      Stopper(bootloaderStopped, appStartTimer)
    }

    /** The result says that the signal was emitted before returning. A second call does nothing. */
    method StopBootloader(devices: I2cDevices) returns (assumed: bool)
      modifies this, devices
      ensures old(Value()) != Stopper(false, false) ==>
                !assumed && Value() == old(Value()) && devices.step == old(devices.step)
      ensures old(Value()) == Stopper(false, false) ==>
                && devices.step == old(devices.step) + 1 && assumed == !devices.answers(old(devices.step)).done
                && Value() == Stopper(assumed, !assumed)
    {
      assumed := false;
      if !bootloaderStopped && !appStartTimer {
        var result := devices.Access();
        if result.done {
          appStartTimer := true;
        } else {
          bootloaderStopped := true;
          assumed := true;
        }
      }
    }

    method OnAppStartWaitFinished() returns (assumed: bool)
      modifies this`bootloaderStopped
      ensures assumed && bootloaderStopped
    {
      bootloaderStopped := true;
      assumed := true;
    }
  }

  datatype PendingChannelInfo = PendingChannelInfo(stopper: I2cCtlBootloaderStopper, nameMx: string, muxChannel: int)

  class HotPluggableControllerContainer {
    const devices: I2cDevices
    var controllers: map<int, string>
    var pendingBootloaderStoppers: map<int, PendingChannelInfo>
    var channelsWithoutController: set<int>
    ghost var signals: seq<set<int>>

    constructor (devices: I2cDevices)
      ensures this.devices == devices && Valid()
      ensures View() == INIT.(step := devices.step)
    {
      this.devices := devices;
      controllers, pendingBootloaderStoppers, channelsWithoutController, signals := map[], map[], {}, [];
    }

    ghost function Stoppers(): set<I2cCtlBootloaderStopper>
      reads this`pendingBootloaderStoppers
    {
      set c <- pendingBootloaderStoppers :: pendingBootloaderStoppers[c].stopper
    }

    /** Every channel has a stopper of its own. */
    ghost predicate Valid()
      reads this
    {
      forall c <- pendingBootloaderStoppers :: pendingBootloaderStoppers[c].stopper.channelId == c
    }

    ghost function View(): State
      reads this, Stoppers(), devices
    {
      State(PendingChannels(), controllers, channelsWithoutController, signals, devices.step)
    }

    ghost function PendingChannels(): map<int, Pending>
      reads this`pendingBootloaderStoppers, Stoppers()
    {
      map c <- pendingBootloaderStoppers :: PendingView(pendingBootloaderStoppers[c])
    }

    twostate lemma OtherChannels(c: int)
      requires pendingBootloaderStoppers - {c} == old(pendingBootloaderStoppers) - {c}
      requires forall d <- pendingBootloaderStoppers :: d != c ==>
                 && d in old(pendingBootloaderStoppers)
                 && pendingBootloaderStoppers[d].stopper.Value() == old(pendingBootloaderStoppers[d].stopper.Value())
      ensures PendingChannels() - {c} == old(PendingChannels()) - {c}
    {
      var m, n := PendingChannels() - {c}, old(PendingChannels()) - {c};
      assert m.Keys == (pendingBootloaderStoppers - {c}).Keys == n.Keys;
      forall d | d in m ensures m[d] == n[d] {
        assert pendingBootloaderStoppers[d] == (pendingBootloaderStoppers - {c})[d];
        assert old(pendingBootloaderStoppers)[d] == (old(pendingBootloaderStoppers) - {c})[d];
      }
    }

    static ghost function PendingView(info: PendingChannelInfo): Pending
      reads info.stopper
    {
      Pending(info.nameMx, info.muxChannel, info.stopper.Value())
    }

    predicate IsChannelKnown(c: int)
      reads this, Stoppers(), devices
      ensures IsChannelKnown(c) == View().Known(c)
    {
      c in pendingBootloaderStoppers || c in controllers || c in channelsWithoutController
    }

    method OnBootloaderStopAssumed(c: int)
      requires Valid()
      modifies this, devices
      ensures Valid() && View() == StopAssumed(old(View()), devices.answers, c)
    {
      if c in pendingBootloaderStoppers {
        var channelInfo := pendingBootloaderStoppers[c];
        pendingBootloaderStoppers := pendingBootloaderStoppers - {c};
        OtherChannels(c);
        assert PendingChannels() == old(PendingChannels()) - {c};
        hide PendingChannels, Probed;
        ReadController(c, channelInfo.nameMx);
      }
    }

    method ReadController(c: int, nameMx: string)
      requires Valid() && c !in pendingBootloaderStoppers
      modifies this`controllers, this`channelsWithoutController, this`signals, devices
      ensures Valid() && View() == Probed(old(View()), devices.answers, c, nameMx)
    {
      assert c !in PendingChannels();
      var version := devices.Access();
      if version.done && version.text != "" {
        var emob := devices.Access();
        if emob.done {
          var subType := devices.Access();
          if subType.done && subType.text != "" {
            controllers := controllers[c := nameMx];
            signals := signals + [controllers.Keys];
          }
        }
      } else {
        channelsWithoutController := channelsWithoutController + {c};
      }
      OtherChannels(c);
      NotThere(PendingChannels(), old(PendingChannels()), c);
    }

    static lemma NotThere(m: map<int, Pending>, n: map<int, Pending>, c: int)
      requires m - {c} == n - {c} && c !in m && c !in n
      ensures m == n
    {
      assert m == m - {c} && n == n - {c};
    }

    method StartAddingController(setting: Setting)
      requires Valid() && !IsChannelKnown(setting.ctrlChannel)
      modifies this, devices
      ensures Valid() && View() == StartAdding(old(View()), devices.answers, setting)
    {
      hide StopAssumed;
      var c := setting.ctrlChannel;
      var bootStopper := new I2cCtlBootloaderStopper(c, setting.muxChannel);
      var info := PendingChannelInfo(bootStopper, setting.nameMx, setting.muxChannel);
      pendingBootloaderStoppers := pendingBootloaderStoppers[c := info];
      var assumed := bootStopper.StopBootloader(devices);
      OtherChannels(c);
      assert PendingChannels()[c] == Pending(setting.nameMx, setting.muxChannel, Stopper(assumed, !assumed));
      PutBack(PendingChannels(), old(PendingChannels()), c);
      hide PendingChannels;
      if assumed {
        OnBootloaderStopAssumed(c);
      }
    }

    static lemma PutBack(m: map<int, Pending>, n: map<int, Pending>, c: int)
      requires c in m && m - {c} == n - {c}
      ensures m == n[c := m[c]]
    {
      assert m == (m - {c})[c := m[c]];
      assert n[c := m[c]] == (n - {c})[c := m[c]];
    }

    static lemma Gone(m: map<int, Pending>, n: map<int, Pending>, c: int)
      requires m - {c} == n - {c} && c !in m
      ensures m == n - {c}
    {
      assert m == m - {c};
    }

    method RemoveNotRunning(c: int)
      requires Valid()
      modifies this`channelsWithoutController, this`pendingBootloaderStoppers
      ensures Valid() && View() == old(View()).(without := old(View()).without - {c}, pending := old(View()).pending - {c})
    {
      if c in channelsWithoutController {
        channelsWithoutController := channelsWithoutController - {c};
      }
      if c in pendingBootloaderStoppers {
        pendingBootloaderStoppers := pendingBootloaderStoppers - {c};
      }
      OtherChannels(c);
      assert c !in PendingChannels();
      Gone(PendingChannels(), old(PendingChannels()), c);
    }

    method RemoveChannel(c: int)
      requires Valid()
      modifies this
      ensures Valid() && View() == Remove(old(View()), c)
    {
      RemoveNotRunning(c);
      label Removed:
      assert c !in PendingChannels();
      if c in controllers {
        controllers := controllers - {c};
        signals := signals + [controllers.Keys];
      }
      OtherChannels@Removed(c);
      NotThere(PendingChannels(), old@Removed(PendingChannels()), c);
    }

    method StartActualizeEmobControllers(bitmaskAvailable: Bits, settings: seq<Setting>)
      requires Valid()
      modifies this, devices
      ensures Valid() && View() == Actualize(old(View()), devices.answers, bitmaskAvailable, settings)
    {
      hide StartAdding, Remove, PendingChannels;
      for i := 0 to |settings|
        invariant Valid() && View() == Actualize(old(View()), devices.answers, bitmaskAvailable, settings[..i])
      {
        var setting := settings[i];
        assert settings[..i + 1][..i] == settings[..i];
        if setting.plugBit >= 0 {
          if setting.plugBit in bitmaskAvailable {
            if !IsChannelKnown(setting.ctrlChannel) {
              StartAddingController(setting);
            }
          } else {
            RemoveChannel(setting.ctrlChannel);
          }
        }
      }
      assert settings[..|settings|] == settings;
    }

    /** The timer of a channel's live stopper expires. */
    method TimerExpired(c: int)
      requires Valid() && c in pendingBootloaderStoppers && pendingBootloaderStoppers[c].stopper.appStartTimer
      modifies this, devices, pendingBootloaderStoppers[c].stopper
      ensures Valid() && View() == Expire(old(View()), devices.answers, c)
    {
      var stopper := pendingBootloaderStoppers[c].stopper;
      assert forall d <- pendingBootloaderStoppers :: d != c ==> pendingBootloaderStoppers[d].stopper != stopper;
      var assumed := stopper.OnAppStartWaitFinished();
      OtherChannels(c);
      assert c in PendingChannels() && PendingChannels()[c].nameMx == old(PendingChannels())[c].nameMx;
      hide PendingChannels;
      OnBootloaderStopAssumed(stopper.channelId);
    }
  }
}
