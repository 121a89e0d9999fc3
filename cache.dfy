/** XlaCompilationCache: the memo table from Signature to Entry, the
    per-entry state machine and the three compile modes, modelled
    sequentially. A background compilation is a task queued in
    `pendingCompilations` and run later by `RunAsyncCompilation`. */
module CompilationCache {
  import opened Base
  import opened Signatures
  import opened Xla
  import opened Persistence
  import opened StrictCompilation

  datatype CompileState = Uncompiled | Compiling | Compiled

  /** DeviceCompileMode. */
  datatype CompileMode = Strict | Lazy | Async

  function StateRank(s: CompileState): nat {
    match s
    case Uncompiled => 0
    case Compiling => 1
    case Compiled => 2
  }

  /** The state only moves forward: Uncompiled, Compiling, Compiled. */
  predicate NoRegression(before: CompileState, after: CompileState) {
    StateRank(before) <= StateRank(after)
  }

  /** The value of an Entry's fields at one moment. */
  datatype EntryData = EntryData(
    compileState: CompileState,
    requestCount: int,
    compilationStatus: Status,
    compilationResult: Option<CompilationResult>,
    executable: Option<Executable>)

  const NewEntryData := EntryData(Uncompiled, 0, Ok, None, None)

  /** What Compile hands back for an entry it read: the status, and the
      result and executable only when the status is ok. */
  datatype Reply = Reply(status: Status, result: Option<CompilationResult>, executable: Option<Executable>)

  const NullReply := Reply(Ok, None, None)

  /** Nothing is recorded before compilation finishes, and a successful
      compilation always leaves a result. */
  ghost predicate ConsistentData(d: EntryData) {
    && d.requestCount >= 0
    && (d.compileState != Compiled ==> d.compilationStatus == Ok && d.compilationResult == None && d.executable == None)
    && (d.compileState == Compiled && d.compilationStatus.Ok? ==> d.compilationResult.Some?)
  }

  /** An ok reply read from a consistent, compiled entry always carries a
      compilation result, as a successful Compile promises its caller. */
  function ReplyFor(d: EntryData): (r: Reply)
    ensures ConsistentData(d) && d.compileState == Compiled && r.status.Ok? ==> r.result.Some?
  {
    if d.compilationStatus.Ok? then Reply(Ok, d.compilationResult, d.executable)
    else Reply(d.compilationStatus, None, None)
  }

  /** XlaCompilationCache::Entry. */
  class Entry {
    var compileState: CompileState
    var requestCount: int
    var compilationStatus: Status
    var compilationResult: Option<CompilationResult>
    var executable: Option<Executable>

    constructor ()
      ensures Data() == NewEntryData
    {
      compileState := Uncompiled;
      requestCount := 0;
      compilationStatus := Ok;
      compilationResult := None;
      executable := None;
    }

    function Data(): EntryData
      reads this
    {
      EntryData(compileState, requestCount, compilationStatus, compilationResult, executable)
    }

    ghost predicate Consistent()
      reads this
    {
      ConsistentData(Data())
    }
  }

  /** A background compilation queued on the thread pool: the request
      captured by value and the entry to update when it finishes. */
  datatype AsyncTask = AsyncTask(request: Request, entry: Entry)

  /** ResultAndExecutable of GetCompilationResultIfAlreadyCompiled. */
  datatype CompilationResultAndExecutable = CompilationResultAndExecutable(
    compilationResult: Option<CompilationResult>,
    executable: Option<Executable>)

  class XlaCompilationCache {
    const backend: Backend
    const deviceType: string
    const config: Config

    var cache: map<Signature, Entry>
    var pendingCompilations: map<Signature, AsyncTask>
    /** The contents of the persistent cache directory. */
    var files: Directory
    /** Each call made to the compiler, by signature. */
    ghost var compilerCalls: seq<Signature>

    function Settings(): Setting {
      StrictCompilation.Setting(backend, config, deviceType)
    }

    /** One Entry object per signature; an entry is Compiling exactly when
        its background compilation is queued; every entry is consistent. */
    ghost predicate Valid()
      reads this`cache, this`pendingCompilations, cache.Values
    {
      && (forall s, t :: s in cache && t in cache && s != t ==> cache[s] != cache[t])
      && (forall s :: s in pendingCompilations ==>
            s in cache && pendingCompilations[s].entry == cache[s] && pendingCompilations[s].request.sig == s)
      && (forall s :: s in cache ==>
            cache[s].Consistent() && (cache[s].compileState == Compiling <==> s in pendingCompilations))
    }

    constructor (config: Config, backend: Backend, deviceType: string, directory: Directory)
      ensures Valid()
      ensures this.config == config && this.backend == backend && this.deviceType == deviceType
      ensures cache == map[] && pendingCompilations == map[] && files == directory && compilerCalls == []
    {
      this.config := config;
      this.backend := backend;
      this.deviceType := deviceType;
      cache := map[];
      pendingCompilations := map[];
      files := directory;
      compilerCalls := [];
    }

    /** The find-or-insert on `cache_`: an existing entry is returned as it
        is, a missing one is created fresh, and no other entry changes. */
    method GetOrCreateEntry(sig: Signature) returns (entry: Entry)
      requires Valid()
      modifies this`cache
      ensures Valid()
      ensures sig in cache && cache[sig] == entry
      ensures sig in old(cache) ==> entry == old(cache[sig]) && cache == old(cache)
      ensures sig !in old(cache) ==>
        fresh(entry) && entry.Data() == NewEntryData && cache == old(cache)[sig := entry]
    {
      if sig in cache {
        entry := cache[sig];
      } else {
        entry := new Entry();
        cache := cache[sig := entry];
      }
    }

    method TryLoadSerializedEntry(key: CacheKey) returns (r: StatusOr<Option<SerializedEntry>>)
      ensures r == TryLoad(files, key)
    {
      if key !in files {
        return Value(None);
      }
      match files[key]
      case Unparsable => r := Failure(DataLoss, "Unable to parse the serialized cache entry.");
      case Parsed(e) => r := Value(Some(e));
    }

    method SaveSerializedEntry(entry: SerializedEntry)
      modifies this`files
      ensures files == Save(old(files), entry)
    {
      files := files[entry.key := Parsed(entry)];
    }

    /** What one compilation attempt computes, leaving only the directory
        and the record of compiler calls changed. */
    method AttemptCompile(request: Request)
      returns (status: Status, result: Option<CompilationResult>, executable: Option<Executable>)
      modifies this`files, this`compilerCalls
      ensures CompileStrictOutcome(Settings(), request, old(files)) == Outcome(status, result, executable, files)
      ensures compilerCalls == old(compilerCalls) + [request.sig]
    {
      var compiled := backend.compileFunction(request.compileOptions, request.options, request.func, request.args);
      compilerCalls := compilerCalls + [request.sig];
      if compiled.Failure? {
        return compiled.StatusOf(), None, None;
      }
      var compilation := compiled.value;
      result := Some(compilation);

      var key := BuildSerializedCacheKey(request.sig, compilation.computation, deviceType, config.persistancePrefix);
      var persisted: Option<SerializedEntry> := None;
      if config.persistentCacheDirectory != "" {
        var loaded := TryLoadSerializedEntry(key);
        if loaded.Value? && loaded.value.Some? {
          var e := loaded.value.value;
          if VerifyLoadedCacheEntry(config.disableStrictSignatureChecks, key, compilation.computation, e).Ok? {
            persisted := Some(e);
          }
        }
      }

      if persisted.Some? {
        var exe := backend.loadExecutable(request.options, compilation, persisted.value.executable);
        status, executable := exe.StatusOf(), ExecutableOf(exe);
      } else {
        var built := backend.buildExecutable(request.options, compilation);
        status, executable := built.StatusOf(), ExecutableOf(built);
        if built.Value? && config.persistentCacheDirectory != "" {
          var serialized := SerializeEntry(backend, request.options, request.sig, compilation, deviceType, config.persistancePrefix);
          if serialized.Value? {
            SaveSerializedEntry(serialized.value);
          }
        }
      }
    }

    /** One compilation attempt on `entry`, which ends Compiled with the
        status, result and executable of CompileStrictOutcome. */
    method CompileStrict(request: Request, entry: Entry)
      requires Valid()
      requires entry.compileState == Uncompiled
      modifies this`files, this`compilerCalls, entry
      ensures Valid()
      ensures var o := CompileStrictOutcome(Settings(), request, old(files));
        && entry.Data() == EntryData(Compiled, old(entry.requestCount), o.status, o.result, o.executable)
        && files == o.files
      ensures compilerCalls == old(compilerCalls) + [request.sig]
    {
      var status, result, executable := AttemptCompile(request);
      entry.compileState, entry.compilationStatus, entry.compilationResult, entry.executable :=
        Compiled, status, result, executable;
    }

    /** Marks the entry Compiling and queues its background compilation;
        nothing is compiled yet. */
    method CompileAsynchronous(request: Request, entry: Entry)
      requires Valid()
      requires request.sig in cache && cache[request.sig] == entry && entry.compileState == Uncompiled
      modifies this`pendingCompilations, entry`compileState
      ensures Valid()
      ensures entry.compileState == Compiling
      ensures pendingCompilations == old(pendingCompilations)[request.sig := AsyncTask(request, entry)]
    {
      entry.compileState := Compiling;
      pendingCompilations := pendingCompilations[request.sig := AsyncTask(request, entry)];
    }

    /** The end of a background compilation: the outcome is copied into
        the cached entry, which becomes Compiled, and the queued task leaves the
        queue. */
    method FinishAsyncCompilation(sig: Signature, local: Entry)
      requires Valid()
      requires sig in pendingCompilations
      requires local.compileState == Compiled && local.Consistent()
      modifies this`pendingCompilations, pendingCompilations[sig].entry
      ensures Valid()
      ensures var entry := old(pendingCompilations[sig].entry);
        entry.Data() == local.Data().(requestCount := old(entry.requestCount))
      ensures pendingCompilations == old(pendingCompilations) - {sig}
    {
      var entry := pendingCompilations[sig].entry;
      entry.compileState, entry.compilationStatus, entry.compilationResult, entry.executable :=
        local.compileState, local.compilationStatus, local.compilationResult, local.executable;
      pendingCompilations := pendingCompilations - {sig};
      forall s | s in cache
        ensures cache[s].Consistent() && (cache[s].compileState == Compiling <==> s in pendingCompilations)
      {
        if s != sig {
          assert cache[s] != entry;
        }
      }
    }

    /** The queued task for `sig` runs: it compiles into a local entry and
        copies the outcome into the cached one, which becomes Compiled. */
    method RunAsyncCompilation(sig: Signature)
      requires Valid()
      requires sig in pendingCompilations
      modifies this`files, this`compilerCalls, this`pendingCompilations, pendingCompilations[sig].entry
      ensures Valid()
      ensures var task := old(pendingCompilations[sig]);
        var o := CompileStrictOutcome(Settings(), task.request, old(files));
        && cache[sig] == task.entry
        && task.entry.Data() == EntryData(Compiled, old(task.entry.requestCount), o.status, o.result, o.executable)
        && files == o.files
      ensures pendingCompilations == old(pendingCompilations) - {sig}
      ensures compilerCalls == old(compilerCalls) + [sig]
    {
      var task := pendingCompilations[sig];
      var local := new Entry();
      CompileStrict(task.request, local);
      FinishAsyncCompilation(sig, local);
    }

    /** `++entry->request_count`, which every request performs. */
    method CountRequest(sig: Signature, entry: Entry) returns (count: int)
      requires Valid()
      requires sig in cache && cache[sig] == entry
      modifies entry`requestCount
      ensures Valid()
      ensures count == old(entry.requestCount) + 1 && entry.requestCount == count
    {
      entry.requestCount := entry.requestCount + 1;
      count := entry.requestCount;
      forall s | s in cache ensures cache[s].Consistent() {
        if s != sig {
          assert cache[s] != entry;
        }
      }
    }

    /** The dispatcher once the entry is found: counts the request, then
        answers from the entry, declines, queues, or compiles now. */
    method CompileEntry(request: Request, entry: Entry, mode: CompileMode, shouldCompile: (FunctionName, int) -> bool)
      returns (status: Status, outResult: Option<CompilationResult>, outExecutable: Option<Executable>)
      requires Valid()
      requires request.sig in cache && cache[request.sig] == entry
      modifies this`files, this`compilerCalls, this`pendingCompilations, entry
      ensures Valid()
      ensures cache[request.sig] == entry
      ensures var prior := old(entry.Data());
        var count := prior.requestCount + 1;
        var reply := Reply(status, outResult, outExecutable);
        && entry.requestCount == count
        && NoRegression(prior.compileState, entry.compileState)
        && (prior.compileState != Uncompiled ==>
              && entry.Data() == prior.(requestCount := count)
              && files == old(files) && compilerCalls == old(compilerCalls)
              && pendingCompilations == old(pendingCompilations)
              && reply == (if prior.compileState == Compiled then ReplyFor(prior) else NullReply))
        && (prior.compileState == Uncompiled && mode == Lazy && !shouldCompile(request.func, count) ==>
              && entry.Data() == prior.(requestCount := count)
              && files == old(files) && compilerCalls == old(compilerCalls)
              && pendingCompilations == old(pendingCompilations)
              && reply == NullReply)
        && (prior.compileState == Uncompiled && mode == Async ==>
              && entry.Data() == prior.(requestCount := count, compileState := Compiling)
              && files == old(files) && compilerCalls == old(compilerCalls)
              && pendingCompilations == old(pendingCompilations)[request.sig := AsyncTask(request, entry)]
              && reply == NullReply)
        && (prior.compileState == Uncompiled && (mode == Strict || (mode == Lazy && shouldCompile(request.func, count))) ==>
              var o := CompileStrictOutcome(Settings(), request, old(files));
              && entry.Data() == EntryData(Compiled, count, o.status, o.result, o.executable)
              && files == o.files && compilerCalls == old(compilerCalls) + [request.sig]
              && pendingCompilations == old(pendingCompilations)
              && reply == ReplyFor(entry.Data()))
    {
      var count := CountRequest(request.sig, entry);
      if entry.compileState == Uncompiled {
        if mode == Lazy && !shouldCompile(request.func, count) {
          return Ok, None, None;
        } else if mode == Async {
          CompileAsynchronous(request, entry);
          return Ok, None, None;
        }
        CompileStrict(request, entry);
      } else if entry.compileState == Compiling {
        return Ok, None, None;
      }
      if entry.compilationStatus.Error? {
        return entry.compilationStatus, None, None;
      }
      return Ok, entry.compilationResult, entry.executable;
    }

    /** Compile (and CompileImpl for a function scope): builds the
        signature, finds or creates its entry and dispatches on the mode.
        Entries of other signatures are never touched. */
    method Compile(options: Options, func: FunctionName, args: seq<Argument>, compileOptions: CompileOptions,
                   mode: CompileMode, shouldCompile: (FunctionName, int) -> bool)
      returns (status: Status, outResult: Option<CompilationResult>, outExecutable: Option<Executable>)
      requires Valid()
      modifies this, cache.Values
      ensures Valid()
      ensures BuildSignature(func, args).Failure? ==>
        && status == BuildSignature(func, args).StatusOf() && outResult == None && outExecutable == None
        && cache == old(cache) && pendingCompilations == old(pendingCompilations)
        && files == old(files) && compilerCalls == old(compilerCalls)
        && unchanged(old(cache.Values))
      ensures BuildSignature(func, args).Value? ==>
        var sig := BuildSignature(func, args).value;
        && sig in cache
        && (sig in old(cache) ==> cache == old(cache))
        && (sig !in old(cache) ==> fresh(cache[sig]) && cache == old(cache)[sig := cache[sig]])
        && (forall s :: s in old(cache) && s != sig ==> unchanged(old(cache)[s]))
      ensures BuildSignature(func, args).Value? ==>
        var sig := BuildSignature(func, args).value;
        var request := Request(options, compileOptions, sig, func, args);
        var entry := cache[sig];
        var prior := if sig in old(cache) then old(cache[sig].Data()) else NewEntryData;
        var count := prior.requestCount + 1;
        var reply := Reply(status, outResult, outExecutable);
        && entry.requestCount == count
        && NoRegression(prior.compileState, entry.compileState)
        && (prior.compileState != Uncompiled ==>
              && entry.Data() == prior.(requestCount := count)
              && files == old(files) && compilerCalls == old(compilerCalls)
              && pendingCompilations == old(pendingCompilations)
              && reply == (if prior.compileState == Compiled then ReplyFor(prior) else NullReply))
        && (prior.compileState == Uncompiled && mode == Lazy && !shouldCompile(func, count) ==>
              && entry.Data() == prior.(requestCount := count)
              && files == old(files) && compilerCalls == old(compilerCalls)
              && pendingCompilations == old(pendingCompilations)
              && reply == NullReply)
        && (prior.compileState == Uncompiled && mode == Async ==>
              && entry.Data() == prior.(requestCount := count, compileState := Compiling)
              && files == old(files) && compilerCalls == old(compilerCalls)
              && pendingCompilations == old(pendingCompilations)[sig := AsyncTask(request, entry)]
              && reply == NullReply)
        && (prior.compileState == Uncompiled && (mode == Strict || (mode == Lazy && shouldCompile(func, count))) ==>
              var o := CompileStrictOutcome(Settings(), request, old(files));
              && entry.Data() == EntryData(Compiled, count, o.status, o.result, o.executable)
              && files == o.files && compilerCalls == old(compilerCalls) + [sig]
              && pendingCompilations == old(pendingCompilations)
              && reply == ReplyFor(entry.Data()))
    {
      var built := BuildSignature(func, args);
      if built.Failure? {
        return built.StatusOf(), None, None;
      }
      var sig := built.value;
      var entry := GetOrCreateEntry(sig);
      status, outResult, outExecutable := CompileEntry(Request(options, compileOptions, sig, func, args), entry, mode, shouldCompile);
    }

    /** A read-only lookup: both outputs null unless the signature is
        compiled, the cached error if its compilation failed, the result and
        executable otherwise. It never compiles and never changes the cache
        or an entry (it has no modifies clause). */
    method GetCompilationResultIfAlreadyCompiled(func: FunctionName, args: seq<Argument>)
      returns (r: StatusOr<CompilationResultAndExecutable>)
      requires Valid()
      ensures BuildSignature(func, args).Failure? ==> r.Failure? && r.code == InvalidArgument
      ensures BuildSignature(func, args).Value? ==>
        var sig := BuildSignature(func, args).value;
        && (sig !in cache || cache[sig].compileState != Compiled ==>
              r == Value(CompilationResultAndExecutable(None, None)))
        && (sig in cache && cache[sig].compileState == Compiled && cache[sig].compilationStatus.Error? ==>
              r == Failure(cache[sig].compilationStatus.code, cache[sig].compilationStatus.message))
        && (sig in cache && cache[sig].compileState == Compiled && cache[sig].compilationStatus.Ok? ==>
              && r == Value(CompilationResultAndExecutable(cache[sig].compilationResult, cache[sig].executable))
              && r.value.compilationResult.Some?)
    {
      var built := BuildSignature(func, args);
      if built.Failure? {
        return Failure(built.code, built.message);
      }
      var sig := built.value;
      if sig !in cache {
        return Value(CompilationResultAndExecutable(None, None));
      }
      var entry := cache[sig];
      if entry.compileState != Compiled {
        return Value(CompilationResultAndExecutable(None, None));
      }
      if entry.compilationStatus.Error? {
        return Failure(entry.compilationStatus.code, entry.compilationStatus.message);
      }
      return Value(CompilationResultAndExecutable(entry.compilationResult, entry.executable));
    }
  }

  // -----------------------------------------------------------------------
  // Clients: what a caller can conclude from the contracts above alone.

  /** Two strict requests for a new signature make exactly one compiler
      call, and the second sees what the first produced, an error included. */
  method StrictCompilesOnce(c: XlaCompilationCache, options: Options, func: FunctionName, args: seq<Argument>,
                            compileOptions: CompileOptions, shouldCompile: (FunctionName, int) -> bool)
      returns (first: Reply, second: Reply)
    requires c.Valid()
    requires BuildSignature(func, args).Value? && BuildSignature(func, args).value !in c.cache
    modifies c, c.cache.Values
    ensures c.Valid()
    ensures var sig := BuildSignature(func, args).value;
      var o := CompileStrictOutcome(c.Settings(), Request(options, compileOptions, sig, func, args), old(c.files));
      && c.compilerCalls == old(c.compilerCalls) + [sig]
      && first == second
      && first == ReplyFor(EntryData(Compiled, 1, o.status, o.result, o.executable))
      && sig in c.cache
      && fresh(c.cache[sig]) && c.cache == old(c.cache)[sig := c.cache[sig]]
      && (forall s :: s in old(c.cache) ==> unchanged(old(c.cache)[s]))
      && c.cache[sig].Data() == EntryData(Compiled, 2, o.status, o.result, o.executable)
      && c.files == o.files && c.pendingCompilations == old(c.pendingCompilations)
  {
    var s1, r1, e1 := c.Compile(options, func, args, compileOptions, Strict, shouldCompile);
    var s2, r2, e2 := c.Compile(options, func, args, compileOptions, Strict, shouldCompile);
    first, second := Reply(s1, r1, e1), Reply(s2, r2, e2);
  }

  /** An async request on a new signature queues a task, returns nulls and
      compiles nothing; a lookup meanwhile observes nulls too. */
  method AsyncQueueThenPeek(c: XlaCompilationCache, options: Options, func: FunctionName, args: seq<Argument>,
                            compileOptions: CompileOptions, shouldCompile: (FunctionName, int) -> bool)
      returns (immediate: Reply, pendingLookup: StatusOr<CompilationResultAndExecutable>)
    requires c.Valid()
    requires BuildSignature(func, args).Value? && BuildSignature(func, args).value !in c.cache
    modifies c, c.cache.Values
    ensures c.Valid()
    ensures var sig := BuildSignature(func, args).value;
      && immediate == NullReply
      && pendingLookup == Value(CompilationResultAndExecutable(None, None))
      && c.compilerCalls == old(c.compilerCalls)
      && sig in c.cache
      && fresh(c.cache[sig]) && c.cache == old(c.cache)[sig := c.cache[sig]]
      && (forall s :: s in old(c.cache) ==> unchanged(old(c.cache)[s]))
      && c.cache[sig].Data() == NewEntryData.(compileState := Compiling, requestCount := 1)
      && c.pendingCompilations ==
           old(c.pendingCompilations)[sig := AsyncTask(Request(options, compileOptions, sig, func, args), c.cache[sig])]
      && c.files == old(c.files)
  {
    var s, r, e := c.Compile(options, func, args, compileOptions, Async, shouldCompile);
    immediate := Reply(s, r, e);
    pendingLookup := c.GetCompilationResultIfAlreadyCompiled(func, args);
  }

  /** Once the queued task of an async request has run, the read-only
      lookup observes the compiled result (or the cached error). */
  method AsyncCompileThenLookup(c: XlaCompilationCache, options: Options, func: FunctionName, args: seq<Argument>,
                                compileOptions: CompileOptions, shouldCompile: (FunctionName, int) -> bool)
      returns (immediate: Reply, pendingLookup: StatusOr<CompilationResultAndExecutable>,
               later: StatusOr<CompilationResultAndExecutable>)
    requires c.Valid()
    requires BuildSignature(func, args).Value? && BuildSignature(func, args).value !in c.cache
    modifies c, c.cache.Values
    ensures c.Valid()
    ensures var sig := BuildSignature(func, args).value;
      var o := CompileStrictOutcome(c.Settings(), Request(options, compileOptions, sig, func, args), old(c.files));
      && immediate == NullReply
      && pendingLookup == Value(CompilationResultAndExecutable(None, None))
      && c.compilerCalls == old(c.compilerCalls) + [sig]
      && sig in c.cache
      && fresh(c.cache[sig]) && c.cache == old(c.cache)[sig := c.cache[sig]]
      && (forall s :: s in old(c.cache) ==> unchanged(old(c.cache)[s]))
      && c.cache[sig].Data() == EntryData(Compiled, 1, o.status, o.result, o.executable)
      && c.files == o.files && c.pendingCompilations == old(c.pendingCompilations)
      && (o.status.Ok? ==> later == Value(CompilationResultAndExecutable(o.result, o.executable)) && o.result.Some?)
      && (o.status.Error? ==> later == Failure(o.status.code, o.status.message))
  {
    var sig := BuildSignature(func, args).value;
    ghost var pending := c.pendingCompilations;
    assert sig !in pending;
    immediate, pendingLookup := AsyncQueueThenPeek(c, options, func, args, compileOptions, shouldCompile);
    c.RunAsyncCompilation(sig);
    assert c.pendingCompilations == pending;
    later := c.GetCompilationResultIfAlreadyCompiled(func, args);
  }

  /** A second async request while the first is still queued schedules
      no duplicate task and compiles nothing. */
  method AsyncRequestedTwice(c: XlaCompilationCache, options: Options, func: FunctionName, args: seq<Argument>,
                             compileOptions: CompileOptions, shouldCompile: (FunctionName, int) -> bool)
      returns (first: Reply, second: Reply)
    requires c.Valid()
    requires BuildSignature(func, args).Value? && BuildSignature(func, args).value !in c.cache
    modifies c, c.cache.Values
    ensures c.Valid()
    ensures var sig := BuildSignature(func, args).value;
      && sig in c.cache
      && first == NullReply && second == NullReply
      && c.compilerCalls == old(c.compilerCalls)
      && c.pendingCompilations ==
           old(c.pendingCompilations)[sig := AsyncTask(Request(options, compileOptions, sig, func, args), c.cache[sig])]
      && fresh(c.cache[sig]) && c.cache == old(c.cache)[sig := c.cache[sig]]
      && (forall s :: s in old(c.cache) ==> unchanged(old(c.cache)[s]))
      && c.cache[sig].Data() == NewEntryData.(compileState := Compiling, requestCount := 2)
      && c.files == old(c.files)
  {
    var s1, r1, e1 := c.Compile(options, func, args, compileOptions, Async, shouldCompile);
    var s2, r2, e2 := c.Compile(options, func, args, compileOptions, Async, shouldCompile);
    first, second := Reply(s1, r1, e1), Reply(s2, r2, e2);
  }

  /** A lazy request the heuristic declines compiles nothing and returns
      nulls; a strict request afterwards does compile. */
  method LazyDeclinedThenStrict(c: XlaCompilationCache, options: Options, func: FunctionName, args: seq<Argument>,
                                compileOptions: CompileOptions, shouldCompile: (FunctionName, int) -> bool)
      returns (declined: Reply, compiled: Reply)
    requires c.Valid()
    requires BuildSignature(func, args).Value? && BuildSignature(func, args).value !in c.cache
    requires !shouldCompile(func, 1)
    modifies c, c.cache.Values
    ensures c.Valid()
    ensures var sig := BuildSignature(func, args).value;
      var o := CompileStrictOutcome(c.Settings(), Request(options, compileOptions, sig, func, args), old(c.files));
      && declined == NullReply
      && compiled == ReplyFor(EntryData(Compiled, 2, o.status, o.result, o.executable))
      && c.compilerCalls == old(c.compilerCalls) + [sig]
      && sig in c.cache
      && fresh(c.cache[sig]) && c.cache == old(c.cache)[sig := c.cache[sig]]
      && (forall s :: s in old(c.cache) ==> unchanged(old(c.cache)[s]))
      && c.cache[sig].Data() == EntryData(Compiled, 2, o.status, o.result, o.executable)
      && c.files == o.files && c.pendingCompilations == old(c.pendingCompilations)
  {
    var s1, r1, e1 := c.Compile(options, func, args, compileOptions, Lazy, shouldCompile);
    declined := Reply(s1, r1, e1);
    var s2, r2, e2 := c.Compile(options, func, args, compileOptions, Strict, shouldCompile);
    compiled := Reply(s2, r2, e2);
  }
}
