/** The start of the agent's service: load the saved device or register a new one, over many restarts. */
module AgentService {
  import opened Wrappers
  import opened AgentState

  datatype Failed = EnrollmentKeyRequired | RegisterFailed | SaveFailed

  datatype Credentials = Credentials(deviceId: string, deviceToken: string)

  const NO_REGISTRATION := NO_STATE.registration

  class RegistrationClient {
    var credentials: Credentials
    ghost var registers: nat

    constructor ()
      ensures registers == 0
    {
      credentials, registers := Credentials("", ""), 0;
    }

    method SetDeviceCredentials(deviceId: string, deviceToken: string)
      modifies this
      ensures credentials == Credentials(deviceId, deviceToken) && registers == old(registers)
    {
      credentials := Credentials(deviceId, deviceToken);
    }

    /** `response` is what the controller answers; a decoded answer also sets the credentials. */
    method Register(response: Option<Registration>) returns (r: Option<Registration>)
      modifies this
      ensures r == response && registers == old(registers) + 1
      ensures credentials == if r.Some? then Credentials(r.value.device.id, r.value.deviceToken) else old(credentials)
    {
      registers := registers + 1;
      if response.Some? {
        credentials := Credentials(response.value.device.id, response.value.deviceToken);
      }
      return response;
    }
  }

  /** One start: the enrolment key it was given, what the controller would answer, and whether a save would
      get as far as its rename. */
  datatype Start = Start(key: string, response: Option<Registration>, now: nat, writes: bool)

  /** `device` is what the service goes on with. */
  datatype Outcome = Outcome(file: Option<File>, registered: bool, device: Result<Registration, Failed>)

  function StartFrom(file: Option<File>, s: Start): Outcome {
    var loaded := LoadFrom(file);
    if loaded.Success? then Outcome(file, false, Success(loaded.value))
    else if s.key == "" then Outcome(file, false, Failure(EnrollmentKeyRequired))
    else if s.response.None? then Outcome(file, true, Failure(RegisterFailed))
    else
      var saved := Next(file, SaveOp(s.response.value), s.now, s.writes);
      if s.writes && Attempt(file, SaveOp(s.response.value)).Success?
      then Outcome(saved, true, Success(s.response.value))
      else Outcome(saved, true, Failure(SaveFailed))
  }

  /** Without a state path there is nothing to load or save. */
  function StartUnsaved(s: Start): Outcome {
    if s.key == "" then Outcome(None, false, Failure(EnrollmentKeyRequired))
    else Outcome(None, true, if s.response.None? then Failure(RegisterFailed) else Success(s.response.value))
  }

  class Service {
    const enrollmentKey: string
    const registration: RegistrationClient
    const state: FileStateStore?
    var device: Registration

    /** `NewService`: a store only when there is a path. */
    constructor (enrollmentKey: string, registration: RegistrationClient, statePath: string, disk: FileSystem)
      ensures this.enrollmentKey == enrollmentKey && this.registration == registration && device == NO_REGISTRATION
      ensures if statePath == "" then state == null else fresh(state) && state.path == statePath && state.disk == disk
    {
      this.enrollmentKey, this.registration, device := enrollmentKey, registration, NO_REGISTRATION;
      if statePath != "" {
        state := new FileStateStore(statePath, disk);
      } else {
        state := null;
      }
    }

    /** `Run` up to the tunnel. */
    method Begin(response: Option<Registration>, now: nat, temp: string, calls: Calls) returns (err: Option<Failed>)
      requires device == NO_REGISTRATION
      requires state != null ==> state.path != "" && temp !in state.disk.files && temp != state.path
      modifies this, registration, if state != null then {state.disk} else {}
      ensures var start := Start(enrollmentKey, response, now, calls.Write());
              var outcome := if state == null then StartUnsaved(start)
                  else StartFrom(old(At(state.disk.files, state.path)), start);
              && (state != null ==> At(state.disk.files, state.path) == outcome.file)
              && registration.registers == old(registration.registers) + (if outcome.registered then 1 else 0)
              && (err.None? <==> outcome.device.Success?)
              && (err.None? ==> device == outcome.device.value
                                && registration.credentials == Credentials(device.device.id, device.deviceToken))
              && (err.Some? ==> err.value == outcome.device.error)
    {
      if state != null {
        var loaded := state.Load();
        if loaded.Success? {
          device := loaded.value;
          registration.SetDeviceCredentials(loaded.value.device.id, loaded.value.deviceToken);
        }
      }
      if device.device.id == "" {
        if enrollmentKey == "" {
          return Some(EnrollmentKeyRequired);
        }
        var registered := registration.Register(response);
        if registered.None? {
          return Some(RegisterFailed);
        }
        device := registered.value;
        if state != null {
          var failed, _ := state.Save(registered.value, now, temp, calls);
          if failed.Some? {
            return Some(SaveFailed);
          }
        }
      }
      return None;
    }
  }

  // ---------------------------------------------------------------- restarts

  /** One run of the program on a state file: it ensures its identity, exits if that fails, and then starts
      the service. `ensured` says whether the identity write would get as far as its rename, `goes` whether
      the program outlives the ensuring. */
  datatype Restart = Restart(overrides: Identity, crypto: Crypto, now: nat, ensured: bool, goes: bool, start: Start)

  function AfterEnsure(file: Option<File>, r: Restart): Option<File> {
    Next(file, EnsureOp(r.overrides, r.crypto), r.now, r.ensured)
  }

  /** The service is started only behind an identity that was written. */
  predicate Begins(file: Option<File>, r: Restart) {
    Attempt(file, EnsureOp(r.overrides, r.crypto)).Success? && r.ensured && r.goes
  }

  function After(file: Option<File>, r: Restart): Option<File> {
    if Begins(file, r) then StartFrom(AfterEnsure(file, r), r.start).file else AfterEnsure(file, r)
  }

  /** `main`: what the program does up to the tunnel. With an empty path nothing is read or written, so every run
      that gets past its identity registers anew. */
  method RunAgent(disk: FileSystem, path: string, overrides: Identity, crypto: Crypto, ensuredAt: nat,
                  ensureTemp: string, ensureCalls: Calls, enrollmentKey: string,
                  response: Option<Registration>, now: nat, temp: string, calls: Calls)
    returns (started: bool, err: Option<Failed>, client: RegistrationClient)
    requires {ensureTemp, temp} !! disk.files.Keys && ensureTemp != path && temp != path &&
             temp != ensureTemp
    modifies disk
    ensures fresh(client)
    ensures path != "" ==>
            var r := Restart(overrides, crypto, ensuredAt, ensureCalls.Write(), true,
                             Start(enrollmentKey, response, now, calls.Write()));
            var file := old(At(disk.files, path));
            && started == Begins(file, r) && At(disk.files, path) == After(file, r)
            && client.registers == (if Registers(file, r) then 1 else 0)
            && (started ==> (err.None? <==> StartFrom(AfterEnsure(file, r), r.start).device.Success?))
            && (started && err.None? ==>
                  var device := StartFrom(AfterEnsure(file, r), r.start).device.value;
                  client.credentials == Credentials(device.device.id, device.deviceToken))
    ensures path == "" ==>
            var outcome := StartUnsaved(Start(enrollmentKey, response, now, calls.Write()));
            && disk.files == old(disk.files)
            && started == Attempt(None, EnsureOp(overrides, crypto)).Success?
            && client.registers == (if started && outcome.registered then 1 else 0)
            && (started ==> (err.None? <==> outcome.device.Success?))
  {
    client := new RegistrationClient();
    err := None;
    var identity, _ := EnsureIdentity(disk, path, overrides, crypto, ensuredAt, ensureTemp, ensureCalls);
    if identity.Failure? {
      return false, None, client;
    }
    assert path != "" ==> temp !in disk.files - {ensureTemp, path};
    var service := new Service(enrollmentKey, client, path, disk);
    err := service.Begin(response, now, temp, calls);
    return true, err, client;
  }

  function RunFrom(file: Option<File>, restarts: seq<Restart>): Option<File> {
    if restarts == [] then file else After(RunFrom(file, restarts[..|restarts| - 1]), restarts[|restarts| - 1])
  }

  predicate Registers(file: Option<File>, r: Restart) {
    Begins(file, r) && StartFrom(AfterEnsure(file, r), r.start).registered
  }

  /** How many times the controller is asked to register. */
  function Enrolments(file: Option<File>, restarts: seq<Restart>): nat {
    if restarts == [] then 0
    else
      var before := restarts[..|restarts| - 1];
      Enrolments(file, before) + if Registers(RunFrom(file, before), restarts[|restarts| - 1]) then 1 else 0
  }

  predicate Installs(file: Option<File>, r: Restart, saved: Registration) {
    Begins(file, r) ==> StartFrom(AfterEnsure(file, r), r.start).device == Success(saved)
  }

  /** A start that saves leaves a file that loads what it saved. */
  lemma SavedIsLoaded(file: Option<File>, s: Start)
    requires StartFrom(file, s).registered && StartFrom(file, s).device.Success?
    ensures LoadFrom(StartFrom(file, s).file) == Success(Kept(s.response.value))
  {
  }

  /** Ensuring an identity does not change what is loaded. */
  lemma EnsureKeepsLoad(file: Option<File>, r: Restart)
    ensures LoadFrom(file).Success? ==> LoadFrom(AfterEnsure(file, r)) == LoadFrom(file)
    ensures LoadFrom(file).Failure? ==> LoadFrom(AfterEnsure(file, r)).Failure?
    ensures Readable(AfterEnsure(file, r)) <==> Readable(file)
  {
  }

  lemma LoadedStays(file: Option<File>, r: Restart, saved: Registration)
    requires LoadFrom(file) == Success(saved)
    ensures LoadFrom(After(file, r)) == Success(saved) && !Registers(file, r) && Installs(file, r, saved)
  {
    EnsureKeepsLoad(file, r);
  }

  lemma {:induction false} NeverAgain(file: Option<File>, restarts: seq<Restart>, saved: Registration)
    requires LoadFrom(file) == Success(saved)
    ensures LoadFrom(RunFrom(file, restarts)) == Success(saved) && Enrolments(file, restarts) == 0
  {
    if restarts != [] {
      var before := restarts[..|restarts| - 1];
      NeverAgain(file, before, saved);
      LoadedStays(RunFrom(file, before), restarts[|restarts| - 1], saved);
    }
  }

  /** Enrol once: from a file that loads a device, no restart ever registers again, and every one that gets
      past its identity goes on with that device, whatever overrides, failures and crashes come between. */
  lemma EnrolOnce(file: Option<File>, restarts: seq<Restart>, saved: Registration)
    requires LoadFrom(file) == Success(saved)
    ensures LoadFrom(RunFrom(file, restarts)) == Success(saved) && Enrolments(file, restarts) == 0
    ensures forall k :: 0 <= k < |restarts| ==> Installs(RunFrom(file, restarts[..k]), restarts[k], saved)
  {
    NeverAgain(file, restarts, saved);
    forall k | 0 <= k < |restarts| ensures Installs(RunFrom(file, restarts[..k]), restarts[k], saved) {
      NeverAgain(file, restarts[..k], saved);
      LoadedStays(RunFrom(file, restarts[..k]), restarts[k], saved);
    }
  }

  /** Once a start has saved what it was given, every later one that gets past its identity installs the same
      credentials, and everything else of the answer but the token hash and the message. */
  lemma LaterStartsInstall(file: Option<File>, s: Start, restarts: seq<Restart>)
    requires StartFrom(file, s).registered && StartFrom(file, s).device.Success?
    ensures StartFrom(file, s).device == Success(s.response.value)
    ensures var saved := StartFrom(file, s).file;
            forall k :: 0 <= k < |restarts| && Begins(RunFrom(saved, restarts[..k]), restarts[k]) ==>
              var found := AfterEnsure(RunFrom(saved, restarts[..k]), restarts[k]);
              var device := StartFrom(found, restarts[k].start).device;
              device.Success? && IsCopyOf(device.value, s.response.value)
  {
    var saved := StartFrom(file, s).file;
    SavesExactly(file, s.response.value);
    SavedIsReturned(file, s.response.value, s.now, []);
    EnrolOnce(saved, restarts, LoadFrom(saved).value);
    forall k | 0 <= k < |restarts|
      ensures Installs(RunFrom(saved, restarts[..k]), restarts[k], LoadFrom(saved).value) {}
  }

  /** Exactly how a start fails. */
  lemma StartsExactly(file: Option<File>, s: Start)
    ensures var device, loads := StartFrom(file, s).device, LoadFrom(file).Success?;
            && (device == Failure(EnrollmentKeyRequired) <==> !loads && s.key == "")
            && (device == Failure(RegisterFailed) <==> !loads && s.key != "" && s.response.None?)
            && (device == Failure(SaveFailed) <==>
                  !loads && s.key != "" && s.response.Some?
                  && (!s.writes || file == Some(Torn) || s.response.value.device.id == ""
                      || s.response.value.deviceToken == ""))
            && (device.Success? ==> device.value == if loads then LoadFrom(file).value else s.response.value)
  {
    if s.response.Some? {
      SavesExactly(file, s.response.value);
    }
  }

  /** A restart with an enrolment key, keys that can be made, a controller that answers with a device and a
      token, and writes that succeed. */
  ghost predicate Healthy(r: Restart) {
    && r.crypto.generated.Some? && (forall k :: r.crypto.derive(k).Some?) && r.ensured && r.goes
    && r.start.key != "" && r.start.writes && r.start.response.Some? && Complete(r.start.response.value)
  }

  lemma HealthyBegins(file: Option<File>, r: Restart)
    requires Healthy(r)
    ensures Begins(file, r) <==> Readable(file)
  {
    if Readable(file) {
      var stored := if file.None? then NO_STATE else Read(file).value;
      assert Identify(stored.identity, r.overrides, r.crypto).Success?;
    }
  }

  lemma UnloadedNext(file: Option<File>, r: Restart)
    requires Healthy(r) && LoadFrom(file).Failure?
    ensures Registers(file, r) <==> Readable(file)
    ensures LoadFrom(After(file, r)).Success? <==> Readable(file)
    ensures Readable(After(file, r)) <==> Readable(file)
  {
    HealthyBegins(file, r);
    EnsureKeepsLoad(file, r);
    if Readable(file) {
      SavedIsLoaded(AfterEnsure(file, r), r.start);
    }
  }

  /** Exactly how often healthy restarts enrol: never if the file loads, once if it is absent or lacks
      credentials, and never if it does not decode, because then no restart gets past its identity. */
  lemma {:induction false} HealthyEnrolments(file: Option<File>, restarts: seq<Restart>)
    requires forall k :: 0 <= k < |restarts| ==> Healthy(restarts[k])
    ensures Enrolments(file, restarts) == if LoadFrom(file).Success? || !Readable(file) || restarts == [] then 0 else 1
    ensures LoadFrom(RunFrom(file, restarts)).Success? <==>
            LoadFrom(file).Success? || (Readable(file) && restarts != [])
    ensures Readable(RunFrom(file, restarts)) <==> Readable(file)
  {
    if restarts != [] {
      var before, last := restarts[..|restarts| - 1], restarts[|restarts| - 1];
      HealthyEnrolments(file, before);
      var now := RunFrom(file, before);
      if LoadFrom(now).Success? {
        LoadedStays(now, last, LoadFrom(now).value);
      } else {
        UnloadedNext(now, last);
      }
    }
  }

  /** Exactly when a restart asks to register, whatever it meets: it gets past its identity, nothing loads, and
      it has an enrolment key. */
  lemma RegistersExactly(file: Option<File>, r: Restart)
    ensures Registers(file, r) <==> Begins(file, r) && LoadFrom(file).Failure? && r.start.key != ""
  {
    EnsureKeepsLoad(file, r);
  }
}
