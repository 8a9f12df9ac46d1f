/** The interface that holds the hot-plugged clamps. */
module ClampInterfaces {
  import opened SenseSettings
  import opened ClampRegistry

  class ClampInterface {
    const env: Env
    var clampStatus: Bits
    // a live clamp is represented by the name of its secondary channel
    var clampHash: map<string, string>
    var clampSecondarySet: set<string>
    var clampChannelList: set<string>

    constructor (env: Env)
      ensures this.env == env && View() == INIT
    {
      this.env := env;
      clampStatus, clampHash, clampSecondarySet, clampChannelList := {}, map[], {}, {};
    }

    function View(): Registry
      reads this
    {
      Registry(clampStatus, clampHash, clampSecondarySet, clampChannelList)
    }

    method GenerateAndNotifyClampChannelList()
      modifies this`clampChannelList
      ensures View() == Announce(old(View()))
    {
      clampChannelList := clampHash.Keys + clampSecondarySet;
    }

    method AddClamp(e: Event, i: nat, dual: bool)
      requires i < |env.settings| && 0 <= env.settings[i].plugBit < 16
      modifies this
      ensures View() == ClampRegistry.AddClamp(old(View()), env, e, i, dual)
    {
      clampStatus := clampStatus + {env.settings[i].plugBit};
      var second := if dual then env.SecondaryName(e, i) else "";
      clampHash := clampHash[env.settings[i].nameMx := second];
      if second != "" {
        clampSecondarySet := clampSecondarySet + {second};
      }
      GenerateAndNotifyClampChannelList();
    }

    method TryAddClamp(e: Event, i: nat)
      requires i < |env.settings| && 0 <= env.settings[i].plugBit < 16
      modifies this
      ensures View() == ClampRegistry.TryAddClamp(old(View()), env, e, i)
    {
      var adjMemory := e.memory(env.settings[i].muxChannel);
      if adjMemory.ClampMemory? {
        AddClamp(e, i, adjMemory.dual);
      }
    }

    method HandleClampDisconnected(channelName: string, plugBit: int)
      modifies this
      ensures View() == ClampRegistry.HandleClampDisconnected(old(View()), channelName, plugBit)
    {
      if channelName in clampHash {
        clampStatus := clampStatus - {plugBit};
        var second := clampHash[channelName];
        clampHash := clampHash - {channelName};
        if second != "" {
          clampSecondarySet := clampSecondarySet - {second};
        }
        GenerateAndNotifyClampChannelList();
      }
    }

    // e is the plug mask with what the multiplexer and the sense interface answer while it is handled
    method ActualizeClampStatus(e: Event)
      modifies this
      ensures View() == Actualize(old(View()), env, e)
    {
      hide ClampRegistry.TryAddClamp, ClampRegistry.HandleClampDisconnected;
      var clChange := Changed(e.mask, clampStatus);
      for i := 0 to |env.settings|
        invariant View() == ActualizeFirst(old(View()), env, e, clChange, i)
      {
        var channelName := env.SenseName(e, i);
        var plugBit := env.settings[i].plugBit;
        if channelName != "" && plugBit >= 0 {
          if plugBit < 16 && plugBit in clChange {
            if plugBit !in clampStatus {
              TryAddClamp(e, i);
            } else {
              HandleClampDisconnected(channelName, plugBit);
            }
          }
        }
      }
    }
  }
}
