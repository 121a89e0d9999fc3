/** The foreign collaborators of the cache: the XLA compiler, the executable
    builder and the loader of persisted executables. They are uninterpreted:
    the cache receives them as total functions, so each is deterministic but
    otherwise arbitrary, and each may fail with a status. */
module Xla {
  import opened Base
  import opened Signatures

  /** An HloModuleProto, by its serialised bytes (proto comparisons in the
      cache compare serialisations). */
  datatype HloModule = HloModule(proto: seq<bv8>)

  /** XlaCompiler::CompilationResult: the computation and opaque metadata
      (output shapes, resource updates and so on). */
  datatype CompilationResult = CompilationResult(computation: HloModule, metadata: nat)

  /** An xla::LocalExecutable, by an opaque handle. */
  datatype Executable = Executable(handle: nat)

  /** XlaCompiler::Options and XlaCompiler::CompileOptions, opaque. */
  datatype Options = Options(id: nat)
  datatype CompileOptions = CompileOptions(id: nat)

  /** `compileFunction` is XlaCompiler::CompileFunction; `buildExecutable`,
      `buildSerializedExecutable` and `loadExecutable` are the BuildExecutable,
      BuildSerializedExecutable and LoadExecutable paths. Building or loading
      may succeed with no executable (a computation without non-constant
      outputs). */
  datatype Backend = Backend(
    compileFunction: (CompileOptions, Options, FunctionName, seq<Argument>) -> StatusOr<CompilationResult>,
    buildExecutable: (Options, CompilationResult) -> StatusOr<Option<Executable>>,
    buildSerializedExecutable: (Options, CompilationResult) -> StatusOr<seq<bv8>>,
    loadExecutable: (Options, CompilationResult, seq<bv8>) -> StatusOr<Option<Executable>>)

  /** A deterministic 64-bit fingerprint of an HLO module. */
  function Fingerprint(m: HloModule): (r: nat)
    ensures r < Uint64Modulus
  {
    HashInts(0, seq(|m.proto|, i requires 0 <= i < |m.proto| => m.proto[i] as int))
  }
}
