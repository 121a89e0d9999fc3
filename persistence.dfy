/** The persistence layer: keys and serialised entries of the persistent
    cache directory, the check a loaded entry must pass, and the directory
    itself as a map from key to file. */
module Persistence {
  import opened Base
  import opened Signatures
  import opened Xla

  /** XlaCompilationCache::Config. An empty directory disables persistence. */
  datatype Config = Config(
    persistentCacheDirectory: string,
    disableStrictSignatureChecks: bool,
    persistancePrefix: string)

  predicate PersistenceEnabled(config: Config) {
    config.persistentCacheDirectory != ""
  }

  /** XlaSerializedCacheKey. */
  datatype CacheKey = CacheKey(
    signatureFingerprint: nat,
    clusterFingerprint: nat,
    deviceType: string,
    prefix: string)

  /** XlaSerializedCacheEntry: the key, the HLO module and the serialised
      (ahead-of-time compiled) executable. */
  datatype SerializedEntry = SerializedEntry(key: CacheKey, hloModule: HloModule, executable: seq<bv8>)

  /** A file of the directory: one that parses to an entry, or one that
      does not. */
  datatype File = Parsed(entry: SerializedEntry) | Unparsable

  type Directory = map<CacheKey, File>

  /** The key of an entry: both fingerprints are unsigned 64-bit values, as
      `XlaSerializedCacheKey` stores them. */
  function BuildSerializedCacheKey(sig: Signature, hloModule: HloModule, deviceType: string, prefix: string): (k: CacheKey)
    ensures k.signatureFingerprint < Uint64Modulus && k.clusterFingerprint < Uint64Modulus
  {
    CacheKey(Hash(sig), Fingerprint(hloModule), deviceType, prefix)
  }

  /** The key depends only on the signature up to `operator==` and on the
      module; modules with different fingerprints never share a key. */
  lemma CacheKeyIdentifiesRequest(s: Signature, t: Signature, m: HloModule, n: HloModule, device: string, prefix: string)
    ensures SignatureEqual(s, t) && m == n ==>
      BuildSerializedCacheKey(s, m, device, prefix) == BuildSerializedCacheKey(t, n, device, prefix)
    ensures Fingerprint(m) != Fingerprint(n) ==>
      BuildSerializedCacheKey(s, m, device, prefix) != BuildSerializedCacheKey(t, n, device, prefix)
  {
  }

  /** Accepts a loaded entry only when its embedded key and module are the
      expected ones, unless strict checks are disabled; any mismatch is an
      InvalidArgument error. */
  function VerifyLoadedCacheEntry(disableStrictSignatureChecks: bool, key: CacheKey, hloModule: HloModule, entry: SerializedEntry): (s: Status)
    ensures s.Ok? <==> disableStrictSignatureChecks || (entry.key == key && entry.hloModule == hloModule)
    ensures s.Error? ==> s.code == InvalidArgument
  {
    if disableStrictSignatureChecks then Ok
    else if entry.key != key then Error(InvalidArgument, "Serialized cache key does not match with the expected key.")
    else if entry.hloModule != hloModule then Error(InvalidArgument, "Serialized HLO does not match with the expected HLO.")
    else Ok
  }

  /** What SerializeEntry produces for a compiled result: the key of the
      request, the module, and the serialised executable; it fails when the
      serialised executable cannot be built. */
  function SerializeEntry(backend: Backend, options: Options, sig: Signature, result: CompilationResult, deviceType: string, prefix: string): (r: StatusOr<SerializedEntry>)
    ensures r.Value? <==> backend.buildSerializedExecutable(options, result).Value?
    ensures r.Value? ==>
      && r.value.key == BuildSerializedCacheKey(sig, result.computation, deviceType, prefix)
      && r.value.hloModule == result.computation
      && r.value.executable == backend.buildSerializedExecutable(options, result).value
  {
    match backend.buildSerializedExecutable(options, result)
    case Failure(c, m) => Failure(c, m)
    case Value(aot) => Value(SerializedEntry(BuildSerializedCacheKey(sig, result.computation, deviceType, prefix), result.computation, aot))
  }

  /** A freshly serialised entry passes verification against the request it
      was built for, whatever the strict-check setting. */
  lemma SerializedEntryVerifies(backend: Backend, options: Options, sig: Signature, result: CompilationResult, deviceType: string, prefix: string, disableStrict: bool)
    requires SerializeEntry(backend, options, sig, result, deviceType, prefix).Value?
    ensures VerifyLoadedCacheEntry(disableStrict,
      BuildSerializedCacheKey(sig, result.computation, deviceType, prefix),
      result.computation,
      SerializeEntry(backend, options, sig, result, deviceType, prefix).value).Ok?
  {
  }

  /** A stale entry, one whose module is not the one being compiled, is
      rejected when strict checks are on. */
  lemma StaleEntryIsRejected(key: CacheKey, hloModule: HloModule, entry: SerializedEntry)
    requires entry.hloModule != hloModule
    ensures VerifyLoadedCacheEntry(false, key, hloModule, entry).Error?
  {
  }

  /** Contents of the directory after SaveSerializedEntry: the entry's file
      is written, replacing any file already there. */
  function Save(files: Directory, entry: SerializedEntry): (r: Directory)
    ensures r.Keys == files.Keys + {entry.key}
    ensures r[entry.key] == Parsed(entry)
    ensures forall k :: k in files && k != entry.key ==> r[k] == files[k]
  {
    files[entry.key := Parsed(entry)]
  }

  /** Result of TryLoadSerializedEntry: no error and no entry when the file
      is absent, an error when it does not parse, the entry otherwise. */
  function TryLoad(files: Directory, key: CacheKey): (r: StatusOr<Option<SerializedEntry>>)
    ensures r == Value(None) <==> key !in files
    ensures r.Failure? <==> key in files && files[key].Unparsable?
    ensures r.Failure? ==> r.code == DataLoss
    ensures forall e :: r == Value(Some(e)) <==> key in files && files[key] == Parsed(e)
  {
    if key !in files then Value(None)
    else match files[key]
      case Unparsable => Failure(DataLoss, "Unable to parse the serialized cache entry.")
      case Parsed(e) => Value(Some(e))
  }

  /** Loading right after saving returns exactly the saved entry. */
  lemma LoadAfterSave(files: Directory, entry: SerializedEntry)
    ensures TryLoad(Save(files, entry), entry.key) == Value(Some(entry))
  {
  }

  /** Saving twice under one key keeps only the second entry, and a save
      leaves every other key's file as it was. */
  lemma SaveOverwrites(files: Directory, first: SerializedEntry, second: SerializedEntry, other: CacheKey)
    requires first.key == second.key && other != second.key
    ensures Save(Save(files, first), second) == Save(files, second)
    ensures TryLoad(Save(files, second), other) == TryLoad(files, other)
  {
  }
}
