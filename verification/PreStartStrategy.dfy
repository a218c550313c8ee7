/** The pre-start strategy itself, proved against `PreStart`: the closure variables of the source are its
    fields. */
module PreStartStrategies {
  import opened Wrappers
  import opened BufferedReplay
  import opened BufferedObservables
  import opened PreStart

  class PreStartStrategy {
    const bufferApiCalls: BufferedObservable<nat>
    var initialized: bool
    var cachedConfiguration: Option<Configuration>
    var sessionManager: bool
    var telemetry: bool
    var watchesConsent: bool
    var firstStartViewCall: Option<nat>
    var callbackToSkip: Option<nat>
    var started: bool
    var starts: seq<Start>

    ghost function Abs(): Boot
      reads this, bufferApiCalls
    {
      Boot(bufferApiCalls.Abs(), initialized, cachedConfiguration, sessionManager, telemetry, watchesConsent,
           firstStartViewCall, callbackToSkip, started, starts)
    }

    ghost predicate Valid()
      reads this, bufferApiCalls
    {
      BootInv(Abs()) && bufferApiCalls.react == NoReaction
    }

    constructor ()
      ensures Abs() == InitBoot() && Valid() && fresh(bufferApiCalls)
    {
      bufferApiCalls := new BufferedObservable(BUFFER_LIMIT, NoReaction);
      initialized, cachedConfiguration, sessionManager, telemetry := false, None, false, false;
      watchesConsent, firstStartViewCall, callbackToSkip, started, starts := true, None, None, false, [];
      new;
      BootsKeepInv([]);
    }

    method TryStart()
      requires bufferApiCalls.react == NoReaction && Undecided(Abs())
      modifies this, bufferApiCalls
      ensures Abs() == TryStartRum(old(Abs())) && Valid()
    {
      TryStartDecides(Abs());
      if started || !initialized || cachedConfiguration.None? || !sessionManager || !telemetry {
        return;
      }
      watchesConsent := false;
      var initialView := None;
      if cachedConfiguration.value.trackViewsManually {
        if firstStartViewCall.None? {
          return;
        }
        initialView := firstStartViewCall;
      }
      callbackToSkip := initialView;
      starts := starts + [Start(cachedConfiguration.value, initialView)];
      started := true;
      bufferApiCalls.Subscribe(RUM_OBSERVER);
      bufferApiCalls.Unbuffer();
    }

    method InitRum(configuration: Option<Configuration>)
      requires Valid()
      modifies this
      ensures Abs() == Handle(old(Abs()), InitCalled(configuration)) && Valid()
    {
      HandleKeepsInv(Abs(), InitCalled(configuration));
      initialized := true;
      if cachedConfiguration.None? {
        cachedConfiguration := configuration;
      }
    }

    method StartTelemetry()
      requires Valid()
      modifies this
      ensures Abs() == Handle(old(Abs()), TelemetryStarted) && Valid()
    {
      HandleKeepsInv(Abs(), TelemetryStarted);
      if cachedConfiguration.Some? {
        telemetry := true;
      }
    }

    method ResolveSessionManager(found: bool)
      requires Valid()
      modifies this, bufferApiCalls
      ensures Abs() == Handle(old(Abs()), SessionManagerResolved(found)) && Valid()
    {
      if found && telemetry {
        sessionManager := true;
        TryStart();
      }
    }

    method ChangeConsent()
      requires Valid()
      modifies this, bufferApiCalls
      ensures Abs() == Handle(old(Abs()), ConsentChanged) && Valid()
    {
      if watchesConsent {
        TryStart();
      }
    }

    method CallApi()
      requires Valid()
      modifies bufferApiCalls
      ensures Abs() == Handle(old(Abs()), ApiCalled) && Valid()
    {
      BufferCallKeepsInv(Abs());
      bufferApiCalls.Notify(|bufferApiCalls.log|);
    }

    method StartView()
      requires Valid()
      modifies this, bufferApiCalls
      ensures Abs() == Handle(old(Abs()), StartViewCalled) && Valid()
    {
      BufferCallKeepsInv(Abs());
      var callback := |bufferApiCalls.log|;
      bufferApiCalls.Notify(callback);
      if firstStartViewCall.None? {
        firstStartViewCall := Some(callback);
        TryStart();
      }
    }

    method RunMicrotask()
      requires Valid()
      modifies bufferApiCalls
      ensures Abs() == Handle(old(Abs()), MicrotaskRun) && Valid()
    {
      MicrotaskKeepsInv(Abs());
      bufferApiCalls.RunNextMicrotask();
    }
  }
}
