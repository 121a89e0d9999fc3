# XlaCompilationCache, modelled in Dafny

This project models the memoisation core of TensorFlow's `XlaCompilationCache`
(`tensorflow/compiler/jit/xla_compilation_cache.h`). The cache turns a function
plus a list of argument descriptions into a compiled XLA computation and an
executable, and keeps the result so that the same request is compiled once.
The model covers the following parts of that header:

- **Signature** (`signatures.dfy`). This is the cache key. It holds a function
  name and an ordered list of arguments. Each argument is a compile-time-constant
  tensor value or a `(DataType, dims)` pair. The module also has
  `operator==`, a 64-bit hash and `BuildSignature`. `BuildSignature` rejects
  arguments it cannot classify with InvalidArgument.
- **Entry and the store** (`cache.dfy`). `Entry` is a class whose fields are
  changed in place: `compileState`, `requestCount`, `compilationStatus`,
  `compilationResult` and `executable`. `XlaCompilationCache` holds
  `cache: map<Signature, Entry>`. Its object invariant `Valid()` says three things:
    - there is one distinct Entry object per signature;
    - an entry is `Compiling` exactly when its background compilation is queued;
    - no entry records a result before it is `Compiled`.
- **Dispatcher** (`cache.dfy`). `Compile` builds the signature, gets or creates
  the entry and counts the request. Then it acts as follows:
    - an entry that is already `Compiled` answers from the entry in every mode;
    - a `Compiling` entry answers with nulls;
    - on an `Uncompiled` entry, `Strict` always compiles;
    - `Lazy` compiles only when the profitability heuristic agrees, and otherwise
      succeeds with both outputs null;
    - `Async` marks the entry `Compiling`, queues a task and returns nulls.

  `RunAsyncCompilation` is the later step in which the queued task runs.
  `GetCompilationResultIfAlreadyCompiled` is a read-only lookup: it has no
  modifies clause.
- **One compile attempt** (`strict.dfy`). `CompileStrictOutcome` is the pure
  specification of `CompileStrict`. It calls the compiler. With a persistent
  directory configured, it looks up the entry under the request's key and
  loads the executable only if `VerifyLoadedCacheEntry` accepts that entry.
  Otherwise it builds the executable and, when both the build and the
  serialisation succeed, saves a fresh serialised entry.
- **Persistence** (`persistence.dfy`). This covers `XlaSerializedCacheKey`,
  `XlaSerializedCacheEntry`, key derivation, the match-or-reject check, and the
  save and try-load operations. The directory is modelled as a
  `map<CacheKey, File>`.

The foreign collaborators are total functions held in a `Backend` value. They
are XLA `CompileFunction`, `BuildExecutable`, `BuildSerializedExecutable` and
`LoadExecutable`. Each of them is deterministic but otherwise arbitrary, and any
of them may fail. The profitability heuristic is a function parameter of type
`(FunctionName, int) -> bool` that receives the updated request count. A ghost
log `compilerCalls` records every compiler call, so contracts can state when
nothing is compiled.

The header declares these members but has no bodies. The model follows the
declared types and doc comments. The header leaves the following behaviour
open, and the model fixes it like this:

- A strict attempt moves the entry straight from `Uncompiled` to `Compiled`. A
  compiler or build failure leaves the entry `Compiled` with the error as its
  status. Later requests get that error back without compiling again.
- A persisted file that is absent, unparsable, or rejected by
  `VerifyLoadedCacheEntry` is treated as a miss. The executable is then built
  afresh and the file is overwritten on save. A failure to serialise the
  executable skips the save.
- A failed build records its error on the entry and saves nothing, even when
  serialisation would succeed. The directory, including any stale file, stays
  as it was.
- When a verified persisted entry's executable fails to load, that error is
  recorded on the entry as the compilation status. Nothing is built afresh.
- `disable_strict_signature_checks` makes `VerifyLoadedCacheEntry` accept every
  loaded entry.
- Only `kLazy` consults the heuristic, as lines 96-101 describe. A second async
  request while one task is queued for the same entry schedules nothing.
- A `Strict` request whose entry has a queued background compilation (the
  entry is `Compiling`) gets ok with both outputs null. It neither waits nor
  compiles, although lines 100-101 say `kStrict` always attempts compilation
  on a miss. The model counts a `Compiling` entry as a hit whose result is not
  ready yet.
- Lines 133-134 promise a non-null executable for a compiled signature, but
  lines 105-109 allow a null executable after a successful compile. The lookup
  therefore returns the entry's executable as it is, which may be `None`.

## Model

| member | source | states |
|---|---|---|
| `Signatures.ArgEqual` | tensorflow/compiler/jit/xla_compilation_cache.h:154-159 | argument comparison (constants by value, type-and-shape pairs by dtype and dims, different kinds never) holds exactly when the two arguments are equal values |
| `Signatures.ArgsEqual` | tensorflow/compiler/jit/xla_compilation_cache.h:154-161 | the recursive list comparison holds exactly when the two argument lists are equal sequences |
| `Signatures.SignatureEqual` | tensorflow/compiler/jit/xla_compilation_cache.h:151-161 | `operator==` holds exactly when the two signatures are equal values, so the cache map behaves as the hash map keyed by `operator==` |
| `Signatures.SignatureEqualIsPositionwise` | tensorflow/compiler/jit/xla_compilation_cache.h:151-161 | `operator==` holds exactly when the names match and the argument lists have equal length and match position by position |
| `Signatures.ArgsEqualIsPositionwise` | tensorflow/compiler/jit/xla_compilation_cache.h:154-161 | the recursive list comparison holds iff the lengths agree and every position is equal |
| `Signatures.KindsNeverEqual` | tensorflow/compiler/jit/xla_compilation_cache.h:154-159 | a constant-tensor argument never equals a type-and-shape argument, in either order |
| `Signatures.ArgumentOrderMatters` | tensorflow/compiler/jit/xla_compilation_cache.h:154-156 | in any argument list, exchanging the arguments at two positions that hold unequal arguments yields an unequal signature |
| `Signatures.Hash` | tensorflow/compiler/jit/xla_compilation_cache.h:163-165 | the hash is a 64-bit value |
| `Signatures.HashRespectsEquality` | tensorflow/compiler/jit/xla_compilation_cache.h:161-165 | signatures equal under `operator==` hash equal |
| `Signatures.ClassifyIsInjective` | tensorflow/compiler/jit/xla_compilation_cache.h:154-159 | distinct classifiable arguments give distinct signature arguments |
| `Signatures.BuildSignatureArgs` | tensorflow/compiler/jit/xla_compilation_cache.h:171-174 | succeeds iff every argument is classifiable, failing with InvalidArgument otherwise; on success maps each argument, in order, to its signature argument |
| `Signatures.BuildSignature` | tensorflow/compiler/jit/xla_compilation_cache.h:171-174 | fails with InvalidArgument exactly when some argument is unclassifiable; otherwise keeps the function name and the arguments in order |
| `Signatures.BuildSignatureSeparates` | tensorflow/compiler/jit/xla_compilation_cache.h:149-150 | two successful requests give equal signatures iff their names and argument lists are identical, and identical requests hash equal |
| `Xla.Fingerprint` | tensorflow/compiler/jit/xla_compilation_cache.h:234-237 | the HLO fingerprint in the cache key is a 64-bit value |
| `Persistence.BuildSerializedCacheKey` | tensorflow/compiler/jit/xla_compilation_cache.h:234-237 | the key's signature and cluster fingerprints are unsigned 64-bit values; what the key identifies is stated by `CacheKeyIdentifiesRequest` |
| `Persistence.CacheKeyIdentifiesRequest` | tensorflow/compiler/jit/xla_compilation_cache.h:234-237 | the key is determined by the request: equal signatures with equal modules get the same key, and modules whose fingerprints differ get different keys; what the key is used for is stated by `SerializedEntryVerifies` and `SavedExecutableIsLoadedNextTime` |
| `Persistence.VerifyLoadedCacheEntry` | tensorflow/compiler/jit/xla_compilation_cache.h:244-247 | ok iff strict checks are disabled or both the embedded key and HLO module equal the expected ones; a mismatch is InvalidArgument |
| `Persistence.SerializeEntry` | tensorflow/compiler/jit/xla_compilation_cache.h:239-242 | succeeds iff the serialised executable builds; the entry carries the request's key, its HLO module and that executable |
| `Persistence.SerializedEntryVerifies` | tensorflow/compiler/jit/xla_compilation_cache.h:239-247 | an entry serialised for a request passes verification against that request |
| `Persistence.StaleEntryIsRejected` | tensorflow/compiler/jit/xla_compilation_cache.h:244-247 | under strict checks, an entry holding another HLO module is rejected |
| `Persistence.Save` | tensorflow/compiler/jit/xla_compilation_cache.h:265-267 | saving writes the entry under its key, overwriting any file there, and leaves every other key as it was |
| `Persistence.TryLoad` | tensorflow/compiler/jit/xla_compilation_cache.h:269-273 | no entry and no error iff the key is absent; an error iff the file does not parse; otherwise the stored entry |
| `Persistence.LoadAfterSave` | tensorflow/compiler/jit/xla_compilation_cache.h:265-273 | loading right after saving returns the saved entry |
| `Persistence.SaveOverwrites` | tensorflow/compiler/jit/xla_compilation_cache.h:265-267 | a second save under one key replaces the first; a save does not change what other keys load |
| `StrictCompilation.VerifiedPersistedEntry` | tensorflow/compiler/jit/xla_compilation_cache.h:244-247 | a persisted entry is used iff persistence is on, its file parses and it passes verification |
| `StrictCompilation.CompileStrictOutcome` | tensorflow/compiler/jit/xla_compilation_cache.h:249-256 | a compiler failure is recorded with nothing produced; otherwise the compiler's result is kept; an ok status always comes with a result; only the request's own key can change in the directory |
| `StrictCompilation.SuccessWithoutExecutable` | tensorflow/compiler/jit/xla_compilation_cache.h:105-109 | a successful compile may yield no executable, and that is success |
| `StrictCompilation.NoDirectoryNoFiles` | tensorflow/compiler/jit/xla_compilation_cache.h:69-71 | with no persistent directory configured, a compile never changes the directory |
| `StrictCompilation.PersistedExecutableIsReused` | tensorflow/compiler/jit/xla_compilation_cache.h:201-206 | a verified persisted entry's executable is loaded and the builder is skipped; the directory is unchanged; a load failure becomes the attempt's status and nothing is built afresh |
| `StrictCompilation.FailedBuildSkipsSave` | tensorflow/compiler/jit/xla_compilation_cache.h:187-199 | a failed build records its error with no executable and leaves the directory unchanged, even when serialisation would succeed |
| `StrictCompilation.StaleEntryIsRebuiltAndOverwritten` | tensorflow/compiler/jit/xla_compilation_cache.h:244-247 | a stale persisted entry is ignored, the executable is built afresh, and a successful save overwrites the stale file with one that verifies |
| `StrictCompilation.SavedExecutableIsLoadedNextTime` | tensorflow/compiler/jit/xla_compilation_cache.h:194-206 | after an attempt that builds and saves, the next attempt for the same request loads the saved executable instead of building one |
| `CompilationCache.ReplyFor` | tensorflow/compiler/jit/xla_compilation_cache.h:105-109 | an ok reply read from a consistent, compiled entry always carries a compilation result |
| `CompilationCache.Entry.constructor` | tensorflow/compiler/jit/xla_compilation_cache.h:214-232 | a new entry is Uncompiled, with request count 0, ok status, no result and no executable |
| `CompilationCache.XlaCompilationCache.constructor` | tensorflow/compiler/jit/xla_compilation_cache.h:80-81 | a new cache holds no entries and no queued compilations, and satisfies its invariant |
| `CompilationCache.XlaCompilationCache.GetOrCreateEntry` | tensorflow/compiler/jit/xla_compilation_cache.h:275-277 | an existing entry is returned unchanged and the map stays as it was; a missing one is created fresh and initial, and the only key added is this one |
| `CompilationCache.XlaCompilationCache.TryLoadSerializedEntry` | tensorflow/compiler/jit/xla_compilation_cache.h:269-273 | returns what `TryLoad` specifies for the current directory, without changing anything |
| `CompilationCache.XlaCompilationCache.SaveSerializedEntry` | tensorflow/compiler/jit/xla_compilation_cache.h:265-267 | the directory becomes `Save` of the old directory |
| `CompilationCache.XlaCompilationCache.AttemptCompile` | tensorflow/compiler/jit/xla_compilation_cache.h:249-256 | computes exactly `CompileStrictOutcome` and records one compiler call |
| `CompilationCache.XlaCompilationCache.CompileStrict` | tensorflow/compiler/jit/xla_compilation_cache.h:249-256 | the entry ends Compiled with the outcome's status, result and executable, its request count kept, and the invariant preserved |
| `CompilationCache.XlaCompilationCache.CompileAsynchronous` | tensorflow/compiler/jit/xla_compilation_cache.h:257-263 | the entry becomes Compiling and exactly one task for its signature is queued; nothing is compiled |
| `CompilationCache.XlaCompilationCache.FinishAsyncCompilation` | tensorflow/compiler/jit/xla_compilation_cache.h:101-103 | the background outcome is copied into the cached entry, which becomes Compiled, and its task leaves the queue |
| `CompilationCache.XlaCompilationCache.RunAsyncCompilation` | tensorflow/compiler/jit/xla_compilation_cache.h:283-284 | running a queued task compiles once and leaves the entry Compiled with that outcome, with the task removed |
| `CompilationCache.XlaCompilationCache.CountRequest` | tensorflow/compiler/jit/xla_compilation_cache.h:220-221 | every request increments the entry's request count by one |
| `CompilationCache.XlaCompilationCache.CompileEntry` | tensorflow/compiler/jit/xla_compilation_cache.h:177-186 | the state never regresses; Compiled and Compiling entries answer without compiling; a declined lazy request and an async request return nulls without compiling; a strict (or accepted lazy) request compiles once and stores the outcome on the entry |
| `CompilationCache.XlaCompilationCache.Compile` | tensorflow/compiler/jit/xla_compilation_cache.h:91-117 | an invalid argument list fails without touching the cache; otherwise the entry for the signature is found or created, no other entry changes, and the per-mode behaviour of `CompileEntry` holds |
| `CompilationCache.XlaCompilationCache.GetCompilationResultIfAlreadyCompiled` | tensorflow/compiler/jit/xla_compilation_cache.h:133-142 | both outputs null unless the signature is compiled; the cached error if its compilation failed; otherwise a non-null result and the entry's executable; never changes any state |
| `CompilationCache.StrictCompilesOnce` | tensorflow/compiler/jit/xla_compilation_cache.h:91-92 | two strict requests for a new signature make one compiler call and return the same reply, errors included; the new entry ends Compiled with request count 2, the directory is the outcome's, and no other entry or queued task changes |
| `CompilationCache.AsyncQueueThenPeek` | tensorflow/compiler/jit/xla_compilation_cache.h:101-103 | an async request for a new signature returns nulls, creates a fresh Compiling entry with one queued task and compiles nothing; a lookup meanwhile sees nulls; no other entry and no file changes |
| `CompilationCache.AsyncCompileThenLookup` | tensorflow/compiler/jit/xla_compilation_cache.h:101-103 | an async request returns nulls; a lookup before completion sees nulls; after the queued task runs the entry is Compiled with the outcome, the queue is as before, and the lookup sees the compiled result or the cached error |
| `CompilationCache.AsyncRequestedTwice` | tensorflow/compiler/jit/xla_compilation_cache.h:257-263 | a second async request while one is queued schedules no duplicate and compiles nothing; the fresh entry is Compiling with request count 2 and the directory is unchanged |
| `CompilationCache.LazyDeclinedThenStrict` | tensorflow/compiler/jit/xla_compilation_cache.h:96-101 | a declined lazy request compiles nothing and returns nulls; a strict request afterwards compiles once and leaves the fresh entry Compiled with request count 2; no other entry or queued task changes |

## Left out

- Mutexes `mu` and `compile_cache_mu_`, the thread-safety annotations and the double-checked locking are not modelled. The model is sequential, so each method runs as one step.
- The thread pool `async_compiler_threads_` is not modelled. A background compile is a queued `AsyncTask` that `RunAsyncCompilation` runs; tasks may run in any order. The destructor (line 82) is left out.
- `CompileSingleOp`, `CompileScope::kOp` and `OpKernelContext` are left out. Only whole-function compilation is modelled.
- The XLA compiler, `xla::LocalClient`, `BuildExecutable`, `BuildSerializedExecutable`, `LoadExecutable` and `GetExecutableBuildOptions` are foreign code. They are uninterpreted functions in `Backend`.
- File-system I/O, file naming and protobuf encoding are left out. The persistent directory is a map from key to file, so saving cannot fail with an I/O error.
- The attribute canonicalisation of `NameAttrList` is left out. A function is identified by its already-canonical name.
- `XlaCompiler::Argument` is reduced to three kinds: constant, runtime parameter, and unclassifiable. Whether a constant tensor is in host memory is not modelled.
- `Signatures.Hash`: its contract states only the 64-bit range. The numeric scheme stands in for the original one, and equal signatures hashing equal is proved separately.
- The profiler's statistics recording is left out. Its profitability decision is a function parameter.
- `disable_strict_signature_checks` is modelled only as a flag that skips verification. The source gives no further detail.
- `CompilationCache.XlaCompilationCache.GetCompilationResultIfAlreadyCompiled`: lines 133-134 promise a non-null executable once a signature is compiled, but the model returns the entry's executable as it is, which may be `None`, because lines 105-109 let a successful compile leave no executable.
- `CompilationCache.XlaCompilationCache.Compile`: `out_executable` is taken to be always non-null, so every successful compilation also builds (or loads) an executable. Lines 106-107 build it only when the caller passes a non-null `out_executable`; a call that asks for the computation alone is not modelled.
- `CompilationCache.XlaCompilationCache.CountRequest`: the request count is an unbounded integer. The model does not capture `int64_t` overflow.
- `HumanString`, `DebugString`, `client()` and `device_type()` only format or expose fields, so they are left out.
