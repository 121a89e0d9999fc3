/** What one CompileStrict attempt computes, as a function of the request
    and of the persistent directory's contents: the status, result and
    executable it leaves on the entry and the directory afterwards. */
module StrictCompilation {
  import opened Base
  import opened Signatures
  import opened Xla
  import opened Persistence

  /** The constant parts of a cache: its collaborators (`client_`), its
      configuration and its device type. */
  datatype Setting = Setting(backend: Backend, config: Config, deviceType: string)

  /** One compilation request, as captured by value for a background
      compile. */
  datatype Request = Request(
    options: Options,
    compileOptions: CompileOptions,
    sig: Signature,
    func: FunctionName,
    args: seq<Argument>)

  datatype Outcome = Outcome(
    status: Status,
    result: Option<CompilationResult>,
    executable: Option<Executable>,
    files: Directory)

  function CompilerOutput(setting: Setting, req: Request): StatusOr<CompilationResult> {
    setting.backend.compileFunction(req.compileOptions, req.options, req.func, req.args)
  }

  function KeyFor(setting: Setting, sig: Signature, result: CompilationResult): CacheKey {
    BuildSerializedCacheKey(sig, result.computation, setting.deviceType, setting.config.persistancePrefix)
  }

  /** The persisted entry the attempt may use: only with persistence
      enabled, only a file that parses, and only one that passes
      VerifyLoadedCacheEntry. An absent, unparsable or rejected file is a
      miss, never an error. */
  function VerifiedPersistedEntry(setting: Setting, sig: Signature, result: CompilationResult, files: Directory): (r: Option<SerializedEntry>)
    ensures r.Some? <==>
      && PersistenceEnabled(setting.config)
      && KeyFor(setting, sig, result) in files
      && files[KeyFor(setting, sig, result)].Parsed?
      && VerifyLoadedCacheEntry(setting.config.disableStrictSignatureChecks, KeyFor(setting, sig, result),
           result.computation, files[KeyFor(setting, sig, result)].entry).Ok?
    ensures r.Some? ==> files[KeyFor(setting, sig, result)] == Parsed(r.value)
  {
    if !PersistenceEnabled(setting.config) then None
    else
      var key := KeyFor(setting, sig, result);
      match TryLoad(files, key)
      case Value(Some(e)) =>
        if VerifyLoadedCacheEntry(setting.config.disableStrictSignatureChecks, key, result.computation, e).Ok? then Some(e) else None
      case _ => None
  }

  function ExecutableOf(r: StatusOr<Option<Executable>>): Option<Executable> {
    if r.Value? then r.value else None
  }

  function CompileStrictOutcome(setting: Setting, req: Request, files: Directory): (o: Outcome)
    // A compiler failure is recorded as it is, with nothing else produced.
    ensures CompilerOutput(setting, req).Failure? ==>
      o == Outcome(CompilerOutput(setting, req).StatusOf(), None, None, files)
    // Otherwise the compiler's result is kept, whatever happens next.
    ensures CompilerOutput(setting, req).Value? ==> o.result == Some(CompilerOutput(setting, req).value)
    ensures o.status.Ok? ==> o.result.Some?
    // Only the request's own key can change in the directory.
    ensures o.files.Keys >= files.Keys
    ensures forall k :: k in o.files && (k !in files || o.files[k] != files[k]) ==>
      && PersistenceEnabled(setting.config)
      && CompilerOutput(setting, req).Value?
      && k == KeyFor(setting, req.sig, CompilerOutput(setting, req).value)
  {
    var compiled := CompilerOutput(setting, req);
    if compiled.Failure? then Outcome(compiled.StatusOf(), None, None, files)
    else
      var result := compiled.value;
      match VerifiedPersistedEntry(setting, req.sig, result, files)
      case Some(e) =>
        var loaded := setting.backend.loadExecutable(req.options, result, e.executable);
        Outcome(loaded.StatusOf(), Some(result), ExecutableOf(loaded), files)
      case None =>
        var built := setting.backend.buildExecutable(req.options, result);
        var saved :=
          if built.Value? && PersistenceEnabled(setting.config) then
            match SerializeEntry(setting.backend, req.options, req.sig, result, setting.deviceType, setting.config.persistancePrefix)
            case Value(entry) => Save(files, entry)
            case Failure(_, _) => files
          else files;
        Outcome(built.StatusOf(), Some(result), ExecutableOf(built), saved)
  }

  /** A successful compile may still yield no executable: when the builder
      succeeds without one, the attempt succeeds without one. */
  lemma SuccessWithoutExecutable(setting: Setting, req: Request, files: Directory)
    requires CompilerOutput(setting, req).Value?
    requires !PersistenceEnabled(setting.config)
    requires setting.backend.buildExecutable(req.options, CompilerOutput(setting, req).value) == Value(None)
    ensures CompileStrictOutcome(setting, req, files).status == Ok
    ensures CompileStrictOutcome(setting, req, files).executable == None
  {
  }

  /** Without a persistent directory the attempt never touches it. */
  lemma NoDirectoryNoFiles(setting: Setting, req: Request, files: Directory)
    requires !PersistenceEnabled(setting.config)
    ensures CompileStrictOutcome(setting, req, files).files == files
  {
  }

  /** A verified persisted entry is used: its executable is loaded, the
      builder is not consulted and the directory is left as it is. */
  lemma PersistedExecutableIsReused(setting: Setting, req: Request, files: Directory, e: SerializedEntry)
    requires CompilerOutput(setting, req).Value?
    requires PersistenceEnabled(setting.config)
    requires var key := KeyFor(setting, req.sig, CompilerOutput(setting, req).value);
      key in files && files[key] == Parsed(e) &&
      VerifyLoadedCacheEntry(setting.config.disableStrictSignatureChecks, key, CompilerOutput(setting, req).value.computation, e).Ok?
    ensures var o := CompileStrictOutcome(setting, req, files);
      var loaded := setting.backend.loadExecutable(req.options, CompilerOutput(setting, req).value, e.executable);
      o == Outcome(loaded.StatusOf(), Some(CompilerOutput(setting, req).value), ExecutableOf(loaded), files)
  {
  }

  /** A failed build records its error and saves nothing, even when the
      serialised form would have built: the directory, and any stale file in
      it, stays as it was. */
  lemma FailedBuildSkipsSave(setting: Setting, req: Request, files: Directory)
    requires CompilerOutput(setting, req).Value?
    requires VerifiedPersistedEntry(setting, req.sig, CompilerOutput(setting, req).value, files).None?
    requires setting.backend.buildExecutable(req.options, CompilerOutput(setting, req).value).Failure?
    ensures var result := CompilerOutput(setting, req).value;
      var built := setting.backend.buildExecutable(req.options, result);
      CompileStrictOutcome(setting, req, files) == Outcome(built.StatusOf(), Some(result), None, files)
    ensures CompileStrictOutcome(setting, req, files).status.Error?
  {
  }

  /** A persisted entry for another HLO module is rejected under strict
      checks: the executable is built afresh and, when building and
      serialising succeed, the stale file is overwritten with an entry that
      does verify. */
  lemma StaleEntryIsRebuiltAndOverwritten(setting: Setting, req: Request, files: Directory)
    requires CompilerOutput(setting, req).Value?
    requires PersistenceEnabled(setting.config) && !setting.config.disableStrictSignatureChecks
    requires var result := CompilerOutput(setting, req).value;
      var key := KeyFor(setting, req.sig, result);
      key in files && files[key].Parsed? && files[key].entry.hloModule != result.computation
    ensures var result := CompilerOutput(setting, req).value;
      var o := CompileStrictOutcome(setting, req, files);
      var built := setting.backend.buildExecutable(req.options, result);
      var serialized := SerializeEntry(setting.backend, req.options, req.sig, result, setting.deviceType, setting.config.persistancePrefix);
      var key := KeyFor(setting, req.sig, result);
      && o.status == built.StatusOf()
      && o.executable == ExecutableOf(built)
      && (built.Value? && serialized.Value? ==>
            && o.files == Save(files, serialized.value)
            && VerifyLoadedCacheEntry(false, key, result.computation, o.files[key].entry).Ok?)
  {
  }

  /** Persistence round trip: an attempt that builds and saves leaves a
      directory from which the next attempt for the same request loads the
      executable instead of building it. */
  lemma SavedExecutableIsLoadedNextTime(setting: Setting, req: Request, files: Directory)
    requires CompilerOutput(setting, req).Value?
    requires PersistenceEnabled(setting.config)
    requires VerifiedPersistedEntry(setting, req.sig, CompilerOutput(setting, req).value, files).None?
    requires var result := CompilerOutput(setting, req).value;
      && setting.backend.buildExecutable(req.options, result).Value?
      && SerializeEntry(setting.backend, req.options, req.sig, result, setting.deviceType, setting.config.persistancePrefix).Value?
    ensures var result := CompilerOutput(setting, req).value;
      var first := CompileStrictOutcome(setting, req, files);
      var aot := setting.backend.buildSerializedExecutable(req.options, result).value;
      var loaded := setting.backend.loadExecutable(req.options, result, aot);
      CompileStrictOutcome(setting, req, first.files) ==
        Outcome(loaded.StatusOf(), Some(result), ExecutableOf(loaded), first.files)
  {
  }
}
