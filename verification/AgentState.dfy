/** The agent's state file: its identity and device credentials, replaced by temporary file and rename. */
module AgentState {
  import opened Wrappers
  import opened Models

  /** A registration response; the device token is kept beside the device it belongs to. */
  datatype Registration = Registration(device: Device, deviceToken: string, relays: seq<string>, message: string)

  datatype Identity = Identity(privateKey: string, publicKey: string, fingerprint: string)

  datatype State = State(registration: Registration, identity: Identity, savedAt: nat)

  const NO_DEVICE := Device([], [], [], [], [], [], [], [], 0)
  const NO_STATE := State(Registration(NO_DEVICE, [], [], []), Identity([], [], []), 0)

  datatype Error = PathRequired | DeviceRequired | NotExist | Undecodable | NoDeviceCredentials | BadKey | SystemCall

  /** What a file holds: a whole encoded state, or anything that does not decode. */
  datatype File = Encoded(state: State) | Torn

  /** The encoding has no token hash: none is written, and none is read. */
  function Coded(s: State): State {
    s.(registration := s.registration.(device := s.registration.device.(tokenHash := [])))
  }

  function Read(file: Option<File>): Result<State, Error> {
    match file
    case None => Failure(NotExist)
    case Some(Torn) => Failure(Undecodable)
    case Some(Encoded(s)) => Success(Coded(s))
  }

  // ---------------------------------------------------------------- writeAgentState

  /** Which system calls of a write succeed, and the mode that the temporary file is created with. */
  datatype Calls = Calls(mkdir: bool, create: bool, chmod: bool, encode: bool, close: bool, rename: bool,
                         remove: bool, mode: nat) {
    predicate Write() { mkdir && create && chmod && encode && close && rename }
  }

  /** What a write leaves: the state with the time of the write. */
  function Persisted(s: State, now: nat): State {
    Coded(s).(savedAt := now)
  }

  function At(files: map<string, File>, path: string): Option<File> {
    if path in files then Some(files[path]) else None
  }

  /** Mode 0600. */
  const OWNER_ONLY := 0x180

  function ModeAt(modes: map<string, nat>, path: string): Option<nat> {
    if path in modes then Some(modes[path]) else None
  }

  /** Apart from the temporary file, the disk was `files` at every crash point from `low` to `high`. */
  ghost predicate Was(history: seq<map<string, File>>, low: nat, high: nat, temp: string, files: map<string, File>) {
    forall k :: low <= k < high <= |history| ==> history[k] - {temp} == files
  }

  lemma WasPlus(history: seq<map<string, File>>, low: nat, temp: string, files: map<string, File>,
                next: map<string, File>)
    requires Was(history, low, |history|, temp, files) && next - {temp} == files
    ensures Was(history + [next], low, |history| + 1, temp, files)
  {
  }

  /** Every crash point from `low` on shows the file at `path` before or after the commit, never anything else. */
  ghost predicate CrashSafe(history: seq<map<string, File>>, low: nat, commit: nat, path: string,
                            before: Option<File>, after: Option<File>) {
    forall k :: low <= k < |history| ==> At(history[k], path) == if commit <= k then after else before
  }

  lemma WasSafe(history: seq<map<string, File>>, low: nat, commit: nat, temp: string, path: string,
                before: map<string, File>, after: map<string, File>)
    requires temp != path && low <= commit <= |history|
    requires Was(history, low, commit, temp, before) && Was(history, commit, |history|, temp, after)
    ensures CrashSafe(history, low, commit, path, At(before, path), At(after, path))
  {
    forall k | low <= k < |history| ensures At(history[k], path) == At(history[k] - {temp}, path) {}
  }

  lemma OthersUntouched(files: map<string, File>, prior: map<string, File>, temp: string, path: string,
                        file: Option<File>)
    requires temp != path && files - {temp} == if file.Some? then prior[path := file.value] else prior
    ensures At(files, path) == if file.Some? then file else At(prior, path)
    ensures files - {temp, path} == prior - {path}
  {
    assert At(files, path) == At(files - {temp}, path);
    assert files - {temp, path} == files - {temp} - {path};
  }

  lemma OtherModesUntouched(modes: map<string, nat>, prior: map<string, nat>, temp: string, path: string)
    requires temp != path && modes - {temp} == prior - {temp}
    ensures ModeAt(modes, path) == ModeAt(prior, path) && modes - {temp, path} == prior - {temp, path}
  {
    assert ModeAt(modes, path) == ModeAt(modes - {temp}, path) && ModeAt(prior, path) == ModeAt(prior - {temp}, path);
    assert modes - {temp, path} == modes - {temp} - {path} && prior - {temp, path} == prior - {temp} - {path};
  }

  class FileSystem {
    var files: map<string, File>
    var modes: map<string, nat>
    /** The files after each system call that changes them: where a crash can leave the disk. */
    ghost var history: seq<map<string, File>>

    method Put(name: string, file: File)
      modifies this`files, this`history
      ensures files == old(files)[name := file] && history == old(history) + [files]
    {
      files := files[name := file];
      history := history + [files];
    }

    method Remove(name: string, ok: bool)
      modifies this
      ensures files == (if ok then old(files) - {name} else old(files)) && history == old(history) + [files]
      ensures modes == if ok then old(modes) - {name} else old(modes)
    {
      if ok {
        files, modes := files - {name}, modes - {name};
      }
      history := history + [files];
    }

    method Rename(name: string, path: string)
      requires name in files && name in modes
      modifies this
      ensures files == (old(files) - {name})[path := old(files)[name]] && history == old(history) + [files]
      ensures modes == (old(modes) - {name})[path := old(modes)[name]]
    {
      files, modes := (files - {name})[path := files[name]], (modes - {name})[path := modes[name]];
      history := history + [files];
    }

    /** Creates the temporary file, empty, and gives it its mode. */
    method OpenTemp(temp: string, calls: Calls) returns (ok: bool)
      requires temp !in files
      modifies this
      ensures ok <==> calls.create && calls.chmod
      ensures files == if calls.create then old(files)[temp := Torn] else old(files)
      ensures history == if calls.create then old(history) + [files] else old(history)
      ensures (ok ==> ModeAt(modes, temp) == Some(OWNER_ONLY)) && modes - {temp} == old(modes) - {temp}
    {
      if !calls.create {
        return false;
      }
      Put(temp, Torn);
      modes := modes[temp := if calls.chmod then OWNER_ONLY else calls.mode];
      return calls.chmod;
    }

    /** Fills the temporary file; a failure leaves it torn or complete. Nothing is written before its mode
        is 0600. */
    method FillTemp(temp: string, state: State, calls: Calls) returns (ok: bool)
      requires temp !in files
      modifies this
      ensures ok <==> calls.create && calls.chmod && calls.encode && calls.close
      ensures ok ==> files == old(files)[temp := Encoded(state)]
      ensures temp in files && files[temp].Encoded? ==> ModeAt(modes, temp) == Some(OWNER_ONLY)
      ensures modes - {temp} == old(modes) - {temp}
      ensures files - {temp} == old(files) && (!calls.create ==> temp !in files)
      ensures |old(history)| <= |history| && history[..|old(history)|] == old(history)
      ensures Was(history, |old(history)|, |history|, temp, old(files))
    {
      ok := OpenTemp(temp, calls);
      if !ok || !calls.encode {
        return false;
      }
      WasPlus(history, |history| - 1, temp, files - {temp}, files[temp := Encoded(state)]);
      Put(temp, Encoded(state));
      return calls.close;
    }

    /** Up to the rename nothing but the temporary file changes; from the rename on, `path` holds the whole
        new state. `commit` is where in the history that happens. */
    method WriteAgentState(path: string, state: State, now: nat, temp: string, calls: Calls)
      returns (err: Option<Error>, ghost commit: nat)
      requires temp !in files && temp != path
      modifies this
      ensures err == if path == "" then Some(PathRequired) else if calls.Write() then None else Some(SystemCall)
      ensures At(files, path) == if err.None? then Some(Encoded(Persisted(state, now))) else old(At(files, path))
      ensures ModeAt(modes, path) == if err.None? then Some(OWNER_ONLY) else old(ModeAt(modes, path))
      ensures temp in files && files[temp].Encoded? ==> ModeAt(modes, temp) == Some(OWNER_ONLY)
      ensures modes - {temp, path} == old(modes) - {temp, path}
      ensures files - {temp, path} == old(files) - {path} && (temp in files ==> err.Some? && !calls.remove)
      ensures |old(history)| <= commit <= |history| && history[..|old(history)|] == old(history) &&
              (err.Some? ==> commit == |history|)
      ensures CrashSafe(history, |old(history)|, commit, path, old(At(files, path)),
                        Some(Encoded(Persisted(state, now))))
    {
      ghost var before, after := files, files[path := Encoded(Persisted(state, now))];
      if path == "" {
        return Some(PathRequired), |history|;
      }
      if !calls.mkdir {
        return Some(SystemCall), |history|;
      }
      var ok := FillTemp(temp, Persisted(state, now), calls);
      if !ok || !calls.rename {
        if calls.create {
          WasPlus(history, |old(history)|, temp, before, if calls.remove then files - {temp} else files);
          Remove(temp, calls.remove);
        }
        OthersUntouched(files, before, temp, path, None);
        OtherModesUntouched(modes, old(modes), temp, path);
        WasSafe(history, |old(history)|, |history|, temp, path, before, after);
        return Some(SystemCall), |history|;
      }
      commit := |history|;
      Rename(temp, path);
      assert files == after && after - {temp} == after;
      WasPlus(history, commit, temp, after, after - {temp});
      Remove(temp, calls.remove);
      OthersUntouched(files, before, temp, path, Some(Encoded(Persisted(state, now))));
      WasSafe(history, |old(history)|, commit, temp, path, before, after);
      return None, commit;
    }
  }

  // ---------------------------------------------------------------- the operations on the file's state

  /** The random key of this call, if randomness was available, and the key functions. */
  datatype Crypto = Crypto(generated: Option<string>, derive: string -> Option<string>, digest: string -> string)

  function FirstNonEmpty(a: string, b: string): string {
    if a != "" then a else b
  }

  function Fingerprint(crypto: Crypto, publicKey: string): string {
    "lb-" + crypto.digest(publicKey)
  }

  function Identify(stored: Identity, overrides: Identity, crypto: Crypto): Result<Identity, Error> {
    var private := FirstNonEmpty(overrides.privateKey, stored.privateKey);
    var public := FirstNonEmpty(overrides.publicKey, stored.publicKey);
    if private == "" && crypto.generated.None? then Failure(SystemCall)
    else
      var private := if private == "" then crypto.generated.value else private;
      if public == "" && crypto.derive(private).None? then Failure(BadKey)
      else
        var public := if public == "" then crypto.derive(private).value else public;
        var fingerprint := FirstNonEmpty(overrides.fingerprint, stored.fingerprint);
        Success(Identity(private, public, if fingerprint == "" then Fingerprint(crypto, public) else fingerprint))
  }

  datatype Op = EnsureOp(overrides: Identity, crypto: Crypto) | SaveOp(registration: Registration)

  /** What is kept of a registration. */
  function Kept(r: Registration): Registration {
    r.(device := r.device.(tokenHash := []), message := "device state")
  }

  /** The state the call tries to write, or the error it returns before writing. */
  function Attempt(file: Option<File>, op: Op): Result<State, Error> {
    var stored := if file.None? then Success(NO_STATE) else Read(file);
    if op.SaveOp? && (op.registration.device.id == "" || op.registration.deviceToken == "") then Failure(DeviceRequired)
    else if stored.Failure? then stored
    else match op
      case SaveOp(registration) => Success(stored.value.(registration := Kept(registration)))
      case EnsureOp(overrides, crypto) =>
        var identity := Identify(stored.value.identity, overrides, crypto);
        if identity.Failure? then Failure(identity.error) else Success(stored.value.(identity := identity.value))
  }

  /** The file afterwards; a call that fails or crashes before its rename does not commit. */
  function Next(file: Option<File>, op: Op, now: nat, committed: bool): Option<File> {
    var s := Attempt(file, op);
    if committed && s.Success? then Some(Encoded(Persisted(s.value, now))) else file
  }

  function LoadFrom(file: Option<File>): Result<Registration, Error> {
    var s := Read(file);
    if s.Failure? then Failure(s.error)
    else if s.value.registration.device.id == "" || s.value.registration.deviceToken == ""
         then Failure(NoDeviceCredentials)
    else Success(s.value.registration)
  }

  method ReadAgentState(disk: FileSystem, path: string) returns (state: Result<State, Error>)
    ensures state == Read(At(disk.files, path))
  {
    if path !in disk.files {
      return Failure(NotExist);
    }
    match disk.files[path]
    case Torn => return Failure(Undecodable);
    case Encoded(s) => return Success(Coded(s));
  }

  method EnsureIdentity(disk: FileSystem, path: string, overrides: Identity, crypto: Crypto, now: nat, temp: string,
                        calls: Calls)
    returns (identity: Result<Identity, Error>, ghost commit: nat)
    requires temp !in disk.files && temp != path
    modifies disk
    ensures var attempt := Attempt(if path == "" then None else old(At(disk.files, path)), EnsureOp(overrides, crypto));
            if attempt.Success? && (path == "" || calls.Write()) then identity == Success(attempt.value.identity)
            else identity == Failure(if attempt.Failure? then attempt.error else SystemCall)
    ensures path == "" ==> disk.files == old(disk.files)
    ensures path != "" ==>
              ModeAt(disk.modes, path) ==
              if identity.Success? then Some(OWNER_ONLY) else old(ModeAt(disk.modes, path))
    ensures path != "" ==>
              At(disk.files, path) ==
              Next(old(At(disk.files, path)), EnsureOp(overrides, crypto), now, identity.Success?)
    ensures path != "" ==> CrashSafe(disk.history, |old(disk.history)|, commit, path, old(At(disk.files, path)),
                                     Next(old(At(disk.files, path)), EnsureOp(overrides, crypto), now, true))
    ensures |old(disk.history)| <= commit <= |disk.history| && (identity.Failure? ==> commit == |disk.history|)
    ensures disk.files - {temp, path} == old(disk.files) - {path}
  {
    commit := |disk.history|;
    var state := NO_STATE;
    if path != "" {
      var read := ReadAgentState(disk, path);
      if read.Failure? && read.error != NotExist {
        return Failure(read.error), commit;
      }
      if read.Success? {
        state := read.value;
      }
    }
    var private := FirstNonEmpty(overrides.privateKey, state.identity.privateKey);
    var public := FirstNonEmpty(overrides.publicKey, state.identity.publicKey);
    var fingerprint := FirstNonEmpty(overrides.fingerprint, state.identity.fingerprint);
    if private == "" {
      if crypto.generated.None? {
        return Failure(SystemCall), commit;
      }
      private := crypto.generated.value;
    }
    if public == "" {
      var derived := crypto.derive(private);
      if derived.None? {
        return Failure(BadKey), commit;
      }
      public := derived.value;
    }
    if fingerprint == "" {
      fingerprint := Fingerprint(crypto, public);
    }
    if path != "" {
      state := state.(identity := Identity(private, public, fingerprint));
      var err;
      err, commit := disk.WriteAgentState(path, state, now, temp, calls);
      if err.Some? {
        return Failure(err.value), commit;
      }
    }
    return Success(Identity(private, public, fingerprint)), commit;
  }

  class FileStateStore {
    const path: string
    const disk: FileSystem

    constructor (path: string, disk: FileSystem)
      ensures this.path == path && this.disk == disk
    {
      this.path, this.disk := path, disk;
    }

    method Load() returns (registration: Result<Registration, Error>)
      ensures registration == if path == "" then Failure(PathRequired) else LoadFrom(At(disk.files, path))
    {
      if path == "" {
        return Failure(PathRequired);
      }
      var state := ReadAgentState(disk, path);
      if state.Failure? {
        return Failure(state.error);
      }
      if state.value.registration.device.id == "" || state.value.registration.deviceToken == "" {
        return Failure(NoDeviceCredentials);
      }
      return Success(state.value.registration);
    }

    method Save(registration: Registration, now: nat, temp: string, calls: Calls)
      returns (err: Option<Error>, ghost commit: nat)
      requires temp !in disk.files && temp != path
      modifies disk
      ensures path == "" ==> err == Some(PathRequired) && disk.files == old(disk.files)
      ensures path != "" ==>
                var attempt := Attempt(old(At(disk.files, path)), SaveOp(registration));
                err == if attempt.Failure? then Some(attempt.error)
                       else if calls.Write() then None else Some(SystemCall)
      ensures path != "" ==>
                At(disk.files, path) == Next(old(At(disk.files, path)), SaveOp(registration), now, err.None?)
      ensures ModeAt(disk.modes, path) == if err.None? then Some(OWNER_ONLY) else old(ModeAt(disk.modes, path))
      ensures path != "" ==> CrashSafe(disk.history, |old(disk.history)|, commit, path, old(At(disk.files, path)),
                                     Next(old(At(disk.files, path)), SaveOp(registration), now, true))
      ensures |old(disk.history)| <= commit <= |disk.history| && (err.Some? ==> commit == |disk.history|)
      ensures disk.files - {temp, path} == old(disk.files) - {path}
    {
      commit := |disk.history|;
      if path == "" {
        return Some(PathRequired), commit;
      }
      if registration.device.id == "" || registration.deviceToken == "" {
        return Some(DeviceRequired), commit;
      }
      var existing := ReadAgentState(disk, path);
      if existing.Failure? && existing.error != NotExist {
        return Some(existing.error), commit;
      }
      var state := if existing.Success? then existing.value else NO_STATE;
      state := state.(registration :=
                      registration.(device := registration.device.(tokenHash := []), message := "device state"));
      err, commit := disk.WriteAgentState(path, state, now, temp, calls);
    }
  }

  // ---------------------------------------------------------------- whole histories of one state file

  /** One call on the file; `committed` is false when it failed or crashed before its rename. */
  datatype Step = Step(op: Op, now: nat, committed: bool)

  function RunFrom(file: Option<File>, steps: seq<Step>): Option<File> {
    if steps == [] then file
    else
      var step := steps[|steps| - 1];
      Next(RunFrom(file, steps[..|steps| - 1]), step.op, step.now, step.committed)
  }

  predicate NoOverride(step: Step) {
    step.op.EnsureOp? ==> step.op.overrides == Identity("", "", "")
  }

  predicate Fixed(id: Identity) {
    id.privateKey != "" && id.publicKey != "" && id.fingerprint != ""
  }

  predicate Holds(file: Option<File>, id: Identity) {
    Read(file).Success? && Read(file).value.identity == id
  }

  /** Keys are not empty strings: they are base64 texts of 32 bytes. */
  ghost predicate Sane(crypto: Crypto) {
    && crypto.generated != Some("")
    && (forall k :: crypto.derive(k) != Some(""))
  }

  /** A call that ensured an identity left it, complete, in the file. */
  lemma EnsuredIsStored(file: Option<File>, overrides: Identity, crypto: Crypto, now: nat)
    requires Sane(crypto) && Attempt(file, EnsureOp(overrides, crypto)).Success?
    ensures var id := Attempt(file, EnsureOp(overrides, crypto)).value.identity;
            Fixed(id) && Holds(Next(file, EnsureOp(overrides, crypto), now, true), id)
  {
    var id := Attempt(file, EnsureOp(overrides, crypto)).value.identity;
    assert crypto.derive(id.privateKey) != Some("");
  }

  lemma {:induction false} IdentityStays(file: Option<File>, id: Identity, steps: seq<Step>)
    requires Fixed(id) && Holds(file, id) && forall k :: 0 <= k < |steps| ==> NoOverride(steps[k])
    ensures Holds(RunFrom(file, steps), id)
  {
    if steps != [] {
      IdentityStays(file, id, steps[..|steps| - 1]);
      assert NoOverride(steps[|steps| - 1]);
    }
  }

  /** Once a call without overrides has returned an identity, every later one that returns at all returns the
      same one, whatever saves, failures and crashes come between. */
  lemma IdentityNeverChanges(file: Option<File>, first: Crypto, now: nat, steps: seq<Step>, second: Crypto)
    requires Sane(first) && Attempt(file, EnsureOp(Identity("", "", ""), first)).Success?
    requires forall k :: 0 <= k < |steps| ==> NoOverride(steps[k])
    ensures var none := Identity("", "", "");
            var later := RunFrom(Next(file, EnsureOp(none, first), now, true), steps);
            Attempt(later, EnsureOp(none, second)).Success?
            && Attempt(later, EnsureOp(none, second)).value.identity ==
               Attempt(file, EnsureOp(none, first)).value.identity
  {
    var none := Identity("", "", "");
    var stored := Next(file, EnsureOp(none, first), now, true);
    EnsuredIsStored(file, none, first, now);
    IdentityStays(stored, Attempt(file, EnsureOp(none, first)).value.identity, steps);
  }

  // ---------------------------------------------------------------- credentials

  predicate Complete(r: Registration) {
    r.device.id != "" && r.deviceToken != ""
  }

  /** The registration of the last save that committed, or what the file held before. */
  function LastSaved(before: Result<Registration, Error>, steps: seq<Step>): Result<Registration, Error> {
    if steps == [] then before
    else
      var last := steps[|steps| - 1];
      if last.op.SaveOp? && last.committed && Complete(last.op.registration) then Success(Kept(last.op.registration))
      else LastSaved(before, steps[..|steps| - 1])
  }

  predicate Readable(file: Option<File>) {
    file != Some(Torn)
  }

  lemma {:induction false} NeverTorn(file: Option<File>, steps: seq<Step>)
    requires Readable(file)
    ensures Readable(RunFrom(file, steps))
  {
    if steps != [] {
      NeverTorn(file, steps[..|steps| - 1]);
    }
  }

  /** A file that does not decode stays as it is: every call fails on it before writing. */
  lemma {:induction false} TornStays(file: Option<File>, steps: seq<Step>)
    requires !Readable(file)
    ensures RunFrom(file, steps) == file && LoadFrom(file) == Failure(Undecodable)
    ensures forall op :: Attempt(file, op).Failure?
  {
    if steps != [] {
      TornStays(file, steps[..|steps| - 1]);
    }
  }

  /** Load returns the registration saved last, with a blank token hash, whatever identity writes (with or
      without overrides), failures and crashes come between. */
  lemma {:induction false} LoadReturnsLastSaved(file: Option<File>, steps: seq<Step>)
    requires Readable(file)
    ensures LoadFrom(RunFrom(file, steps)).Success? ==> LoadFrom(RunFrom(file, steps)).value.device.tokenHash == ""
    ensures LastSaved(LoadFrom(file), steps).Success? ==>
            LoadFrom(RunFrom(file, steps)) == LastSaved(LoadFrom(file), steps)
    ensures LastSaved(LoadFrom(file), steps).Failure? ==> LoadFrom(RunFrom(file, steps)).Failure?
  {
    if steps != [] {
      var before := steps[..|steps| - 1];
      LoadReturnsLastSaved(file, before);
      NeverTorn(file, before);
    }
  }

  /** What Load returns of a saved registration, field by field: everything but the token hash and the message. */
  predicate IsCopyOf(a: Registration, r: Registration) {
    && a.deviceToken == r.deviceToken && a.relays == r.relays && a.message == "device state"
    && a.device == Device(r.device.id, r.device.userId, r.device.groupId, r.device.name, r.device.virtualIP,
                          r.device.publicKey, r.device.endpoint, "", r.device.createdAt)
  }

  /** After a committed save, and until the next one, Load returns what was saved, whatever identity writes, failures
      and crashes follow. */
  lemma {:induction false} SavedIsReturned(file: Option<File>, r: Registration, now: nat, steps: seq<Step>)
    requires Readable(file) && r.device.id != "" && r.deviceToken != ""
    requires forall k :: 0 <= k < |steps| ==> steps[k].op.EnsureOp? || !steps[k].committed
    ensures var loaded := LoadFrom(RunFrom(Next(file, SaveOp(r), now, true), steps));
            loaded.Success? && IsCopyOf(loaded.value, r)
  {
    var saved := Next(file, SaveOp(r), now, true);
    if steps != [] {
      var n := |steps| - 1;
      SavedIsReturned(file, r, now, steps[..n]);
      assert steps[n].op.EnsureOp? || !steps[n].committed;
    }
  }

  /** Exactly when a file loads. */
  lemma LoadsExactly(file: Option<File>)
    ensures LoadFrom(file) == Failure(NotExist) <==> file == None
    ensures LoadFrom(file) == Failure(Undecodable) <==> file == Some(Torn)
    ensures LoadFrom(file) == Failure(NoDeviceCredentials) <==>
            file.Some? && file.value.Encoded?
            && (file.value.state.registration.device.id == "" || file.value.state.registration.deviceToken == "")
    ensures LoadFrom(file).Failure? ==> LoadFrom(file).error in {NotExist, Undecodable, NoDeviceCredentials}
  {
  }

  /** Exactly when a save is refused before it writes: without credentials, or over a file that does not decode. */
  lemma SavesExactly(file: Option<File>, r: Registration)
    ensures Attempt(file, SaveOp(r)) == Failure(DeviceRequired) <==> r.device.id == "" || r.deviceToken == ""
    ensures Attempt(file, SaveOp(r)).Failure? <==> r.device.id == "" || r.deviceToken == "" || file == Some(Torn)
  {
  }

  /** A committed write leaves the time of the write, and the half of the state that it is not about as it was. */
  lemma WritesOneHalf(file: Option<File>, op: Op, now: nat)
    requires Attempt(file, op).Success?
    ensures var after, before := Read(Next(file, op, now, true)), Read(file);
            && after.Success? && after.value.savedAt == now
            && (before.Success? && op.SaveOp? ==> after.value.identity == before.value.identity)
            && (before.Success? && op.EnsureOp? ==> after.value.registration == before.value.registration)
            && (before.Failure? && op.SaveOp? ==> after.value.identity == Identity("", "", ""))
            && (before.Failure? && op.EnsureOp? ==> LoadFrom(Next(file, op, now, true)) == Failure(NoDeviceCredentials))
  {
  }

  /** Which identity a call returns: each part is the configured one, else the stored one, else made afresh - a
      random private key, the public key it derives, the fingerprint of the public key. */
  lemma IdentityExactly(stored: Identity, overrides: Identity, crypto: Crypto)
    ensures var r := Identify(stored, overrides, crypto);
            var private := if overrides.privateKey != "" then Some(overrides.privateKey)
                           else if stored.privateKey != "" then Some(stored.privateKey) else crypto.generated;
            var public := if overrides.publicKey != "" then Some(overrides.publicKey)
                          else if stored.publicKey != "" then Some(stored.publicKey)
                          else if private.Some? then crypto.derive(private.value) else None;
            && (r == Failure(SystemCall) <==> private.None?)
            && (r == Failure(BadKey) <==> private.Some? && public.None?)
            && (private.Some? && public.Some? ==>
                  && r.Success? && r.value.privateKey == private.value && r.value.publicKey == public.value
                  && r.value.fingerprint == if overrides.fingerprint != "" then overrides.fingerprint
                                            else if stored.fingerprint != "" then stored.fingerprint
                                            else "lb-" + crypto.digest(public.value))
  {
  }

  /** A call works on the identity in the file, on none if there is no file, and fails on a file that does not
      decode. */
  lemma EnsuresExactly(file: Option<File>, overrides: Identity, crypto: Crypto)
    ensures var attempt := Attempt(file, EnsureOp(overrides, crypto));
            var stored := if file == None then Identity("", "", "")
                          else if Readable(file) then file.value.state.identity else overrides;
            && (file == Some(Torn) ==> attempt == Failure(Undecodable))
            && (Readable(file) ==>
                  var identity := Identify(stored, overrides, crypto);
                  if identity.Success? then attempt.Success? && attempt.value.identity == identity.value
                  else attempt == Failure(identity.error))
  {
  }

  // ---------------------------------------------------------------- do the two keys belong together?

  predicate Paired(id: Identity, derive: string -> Option<string>) {
    derive(id.privateKey) == Some(id.publicKey)
  }

  predicate PairedFile(file: Option<File>, derive: string -> Option<string>) {
    Read(file).Success? ==>
      var id := Read(file).value.identity;
      if id.privateKey == "" || id.publicKey == "" then id.privateKey == id.publicKey == "" else Paired(id, derive)
  }

  ghost predicate DerivesBy(step: Step, derive: string -> Option<string>) {
    step.op.EnsureOp? ==> step.op.crypto.derive == derive && Sane(step.op.crypto)
  }

  /** Without overrides the two keys of the file always belong together. */
  lemma {:induction false} KeysStayPaired(file: Option<File>, steps: seq<Step>, derive: string -> Option<string>)
    requires PairedFile(file, derive)
    requires forall k :: 0 <= k < |steps| ==>
               NoOverride(steps[k]) && DerivesBy(steps[k], derive)
    ensures PairedFile(RunFrom(file, steps), derive)
  {
    if steps != [] {
      KeysStayPaired(file, steps[..|steps| - 1], derive);
      assert NoOverride(steps[|steps| - 1]);
    }
  }

  /** An overridden private key is combined with the public key already stored, so the result is a pair
      exactly when that stored key is the one it derives (or none is stored). */
  lemma PrivateOverridePairs(stored: Identity, private: string, crypto: Crypto)
    requires private != "" && crypto.derive(private).Some?
    ensures var r := Identify(stored, Identity(private, "", ""), crypto);
            r.Success? && (Paired(r.value, crypto.derive) <==>
                           stored.publicKey == "" || crypto.derive(private) == Some(stored.publicKey))
  {
  }

  /** A matching pair is stored, and another private key is configured: the two keys returned do not belong
      together, and this is what the file holds from then on. */
  lemma PrivateOverrideSplitsPair(now: nat) returns (crypto: Crypto, stored: Identity, private: string)
    ensures Sane(crypto) && Paired(stored, crypto.derive) && Fixed(stored) && private != ""
    ensures var file := Some(Encoded(NO_STATE.(identity := stored)));
            var op := EnsureOp(Identity(private, "", ""), crypto);
            && Attempt(file, op).Success? && !Paired(Attempt(file, op).value.identity, crypto.derive)
            && Holds(Next(file, op, now, true), Attempt(file, op).value.identity)
  {
    crypto := Crypto(None, (k: string) => Some(['p'] + k), (p: string) => p);
    stored, private := Identity(['k'], ['p', 'k'], ['f']), ['o'];
    PrivateOverridePairs(stored, private, crypto);
    assert crypto.derive(stored.privateKey) == Some(['p'] + ['k']) && ['p'] + ['k'] == ['p', 'k'];
    assert crypto.derive(private) == Some(['p'] + ['o']) && (['p'] + ['o'])[1] == 'o';
  }
}
