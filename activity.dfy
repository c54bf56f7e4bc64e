/**
 * MainActivity: the location-permission gate in front of the snapshot
 * queries, and the bookkeeping of the two fence keys registered with the
 * awareness service.
 */
module Activity {
  import Fences

  /** The request code the activity asks for location permission with. */
  const MyPermissionLocation: int := 0
  /** PackageManager.PERMISSION_GRANTED; any other grant result is a refusal. */
  const PermissionGranted: int := 0
  const AccessFineLocation: string := "android.permission.ACCESS_FINE_LOCATION"

  /** DetectedActivityFence.starting(STILL) and DetectedActivityFence.stopping(STILL). */
  datatype FenceCondition = StillStarting | StillStopping

  /** The body of one FenceUpdateRequest. */
  datatype FenceUpdate = AddFence(key: string, fence: FenceCondition) | RemoveFence(key: string)

  /** A request the activity sends to the platform or the awareness service. */
  datatype PlatformCall =
    | RequestPermissions(permissions: seq<string>, requestCode: int)
    | GetDetectedActivity
    | GetWeather
    | UpdateFences(update: FenceUpdate)

  /** The condition under which onRequestPermissionsResult replays the weather query. */
  predicate ReplaysWeather(requestCode: int, grantResults: seq<int>) {
    requestCode == MyPermissionLocation && |grantResults| > 0 && grantResults[0] == PermissionGranted
  }

  /** The keys registered once the service has applied update `c` to `keys`. */
  function Apply(keys: set<string>, c: PlatformCall): set<string> {
    match c
    case UpdateFences(AddFence(key, _)) => keys + {key}
    case UpdateFences(RemoveFence(key)) => keys - {key}
    case _ => keys
  }

  /** The keys registered after the service has applied every update in `calls`, in order. */
  function Registered(calls: seq<PlatformCall>): set<string>
    decreases |calls|
  {
    if calls == [] then {} else Apply(Registered(calls[..|calls| - 1]), calls[|calls| - 1])
  }

  lemma RegisteredSnoc(calls: seq<PlatformCall>, c: PlatformCall)
    ensures Registered(calls + [c]) == Apply(Registered(calls), c)
  {
    assert (calls + [c])[..|calls|] == calls;
  }

  /** Every fence the activity adds uses one of the two receiver keys. */
  predicate AddsKnownKeys(calls: seq<PlatformCall>) {
    forall i :: 0 <= i < |calls| && calls[i].UpdateFences? && calls[i].update.AddFence? ==>
      calls[i].update.key == Fences.StartFenceKey || calls[i].update.key == Fences.StopFenceKey
  }

  lemma AddsKnownKeysSnoc(calls: seq<PlatformCall>, c: PlatformCall)
    requires AddsKnownKeys(calls)
    requires c.UpdateFences? && c.update.AddFence? ==> c.update.key == Fences.StartFenceKey || c.update.key == Fences.StopFenceKey
    ensures AddsKnownKeys(calls + [c])
  {
    forall i | 0 <= i < |calls| ensures (calls + [c])[i] == calls[i] { }
  }

  /** If only the two receiver keys are ever added, only they can be registered. */
  lemma {:induction false} RegisteredOnlyKnownKeys(calls: seq<PlatformCall>)
    requires AddsKnownKeys(calls)
    ensures Registered(calls) <= {Fences.StartFenceKey, Fences.StopFenceKey}
    decreases |calls|
  {
    if calls != [] {
      var init := calls[..|calls| - 1];
      assert AddsKnownKeys(init) by {
        forall i | 0 <= i < |init| ensures init[i] == calls[i] { }
      }
      RegisteredOnlyKnownKeys(init);
    }
  }

  class MainActivity {
    /** Whether the platform holds ACCESS_FINE_LOCATION for the app (what checkSelfPermission reads). */
    var locationGranted: bool
    /** Every request sent, in order. */
    ghost var calls: seq<PlatformCall>
    /** The fence keys registered with the awareness service. */
    var fences: set<string>

    /**
     * The registry is what the update requests sent so far produce, and every
     * fence added so far uses one of the two receiver keys.
     */
    ghost predicate Valid()
      reads this
    {
      fences == Registered(calls) && AddsKnownKeys(calls)
    }

    constructor (locationGranted: bool)
      ensures Valid()
      ensures this.locationGranted == locationGranted && calls == [] && fences == {}
    {
      this.locationGranted := locationGranted;
      calls, fences := [], {};
    }

    /**
     * checkAndRequestWeatherPermissions: true when location permission is
     * held; otherwise asks the platform for it and answers false.
     */
    method CheckAndRequestWeatherPermissions() returns (granted: bool)
      requires Valid()
      modifies this`calls
      ensures Valid()
      ensures granted == locationGranted
      ensures calls == old(calls) + (if granted then [] else [RequestPermissions([AccessFineLocation], MyPermissionLocation)])
    {
      if !locationGranted {
        RegisteredSnoc(calls, RequestPermissions([AccessFineLocation], MyPermissionLocation));
        AddsKnownKeysSnoc(calls, RequestPermissions([AccessFineLocation], MyPermissionLocation));
        calls := calls + [RequestPermissions([AccessFineLocation], MyPermissionLocation)];
        granted := false;
      } else {
        granted := true;
      }
    }

    /** getWeatherSnapshot: the weather query is issued only while location permission is held. */
    method GetWeatherSnapshot()
      requires Valid()
      modifies this`calls
      ensures Valid()
      ensures calls == old(calls) + (if locationGranted then [GetWeather] else [])
    {
      if locationGranted {
        RegisteredSnoc(calls, GetWeather);
        AddsKnownKeysSnoc(calls, GetWeather);
        calls := calls + [GetWeather];
      }
    }

    /**
     * printSnapshot: with permission, the activity query and then the weather
     * query; without it, only the permission request and no query.
     */
    method PrintSnapshot()
      requires Valid()
      modifies this`calls
      ensures Valid()
      ensures calls == old(calls) +
        (if locationGranted then [GetDetectedActivity, GetWeather]
         else [RequestPermissions([AccessFineLocation], MyPermissionLocation)])
    {
      var granted := CheckAndRequestWeatherPermissions();
      if granted {
        RegisteredSnoc(calls, GetDetectedActivity);
        AddsKnownKeysSnoc(calls, GetDetectedActivity);
        calls := calls + [GetDetectedActivity];
        GetWeatherSnapshot();
      }
    }

    /** onResume: checks, and if need be requests, location permission. */
    method OnResume()
      requires Valid()
      modifies this`calls
      ensures Valid()
      ensures calls == old(calls) + (if locationGranted then [] else [RequestPermissions([AccessFineLocation], MyPermissionLocation)])
    {
      var _ := CheckAndRequestWeatherPermissions();
    }

    /**
     * onRequestPermissionsResult: the weather snapshot is retried once when
     * the answer to the location request is a non-empty grant whose first
     * entry is GRANTED; a cancelled or refused request is only logged. The
     * retried query itself still goes through the permission check.
     */
    method OnRequestPermissionsResult(requestCode: int, grantResults: seq<int>)
      requires Valid()
      modifies this`calls
      ensures Valid()
      ensures calls == old(calls) + (if ReplaysWeather(requestCode, grantResults) && locationGranted then [GetWeather] else [])
    {
      if requestCode == MyPermissionLocation {
        if |grantResults| > 0 && grantResults[0] == PermissionGranted {
          GetWeatherSnapshot();
        }
      }
    }

    /**
     * setupFence: one update request adding `key`; the service keeps one
     * fence per key. The activity calls it with the two receiver keys only.
     */
    method SetupFence(key: string, fence: FenceCondition)
      requires Valid()
      requires key == Fences.StartFenceKey || key == Fences.StopFenceKey
      modifies this`calls, this`fences
      ensures Valid()
      ensures fences <= {Fences.StartFenceKey, Fences.StopFenceKey}
      ensures calls == old(calls) + [UpdateFences(AddFence(key, fence))]
      ensures fences == old(fences) + {key}
    {
      RegisteredSnoc(calls, UpdateFences(AddFence(key, fence)));
      AddsKnownKeysSnoc(calls, UpdateFences(AddFence(key, fence)));
      calls := calls + [UpdateFences(AddFence(key, fence))];
      fences := fences + {key};
      RegisteredOnlyKnownKeys(calls);
    }

    /** setupFences: the start key, then the stop key, as two separate requests. */
    method SetupFences()
      requires Valid()
      modifies this`calls, this`fences
      ensures Valid()
      ensures calls == old(calls) + [UpdateFences(AddFence(Fences.StartFenceKey, StillStarting)),
                                     UpdateFences(AddFence(Fences.StopFenceKey, StillStopping))]
      ensures fences == old(fences) + {Fences.StartFenceKey, Fences.StopFenceKey}
      ensures fences <= {Fences.StartFenceKey, Fences.StopFenceKey}
    {
      SetupFence(Fences.StartFenceKey, StillStarting);
      SetupFence(Fences.StopFenceKey, StillStopping);
    }

    /** onPause: removes only the stop key; the start key stays registered. */
    method OnPause()
      requires Valid()
      modifies this`calls, this`fences
      ensures Valid()
      ensures calls == old(calls) + [UpdateFences(RemoveFence(Fences.StopFenceKey))]
      ensures fences == old(fences) - {Fences.StopFenceKey}
      ensures Fences.StartFenceKey in old(fences) ==> Fences.StartFenceKey in fences
      ensures fences <= {Fences.StartFenceKey}
    {
      RegisteredSnoc(calls, UpdateFences(RemoveFence(Fences.StopFenceKey)));
      AddsKnownKeysSnoc(calls, UpdateFences(RemoveFence(Fences.StopFenceKey)));
      calls := calls + [UpdateFences(RemoveFence(Fences.StopFenceKey))];
      fences := fences - {Fences.StopFenceKey};
      RegisteredOnlyKnownKeys(calls);
    }
  }

  /**
   * Without permission the snapshot button issues no query and asks for
   * permission; once the user grants it, the permission callback issues the
   * weather query exactly once.
   */
  method DeferredWeatherScenario()
  {
    var activity := new MainActivity(false);
    activity.PrintSnapshot();
    assert activity.calls == [RequestPermissions([AccessFineLocation], MyPermissionLocation)];
    // The platform records the user's grant before it delivers the callback.
    activity.locationGranted := true;
    activity.OnRequestPermissionsResult(MyPermissionLocation, [PermissionGranted]);
    assert activity.calls == [RequestPermissions([AccessFineLocation], MyPermissionLocation), GetWeather];
  }

  /** A connect, pause, connect cycle leaves both keys registered, each once. */
  method FenceLifecycleScenario()
  {
    var activity := new MainActivity(true);
    activity.SetupFences();
    activity.OnPause();
    assert activity.fences == {Fences.StartFenceKey};
    activity.SetupFences();
    assert activity.fences == {Fences.StartFenceKey, Fences.StopFenceKey};
  }
}
