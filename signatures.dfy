/** `XlaCompilationCache::Signature`: the key of the compilation cache, its
    equality, its hash, and `BuildSignature`, which derives it from the
    arguments of a compilation request. */
module Signatures {
  import opened Base

  /** The (already canonicalised) name of the function to compile. */
  type FunctionName = string

  /** A tensorflow DataType enumerator, by its numeric value. */
  type DataType = nat

  /** A host-memory tensor: element type, dimensions and raw bytes. */
  datatype Tensor = Tensor(dtype: DataType, shape: seq<int>, data: seq<bv8>)

  /** One element of `Signature::args`: the variant of a Tensor (the value of
      a compile-time constant) and a TensorTypeAndShape. */
  datatype SignatureArg =
    | ConstantValue(value: Tensor)
    | TypeAndShape(dtype: DataType, dims: seq<int>)

  datatype Signature = Signature(name: FunctionName, args: seq<SignatureArg>)

  // ---------------------------------------------------------------------
  // Signature::operator==

  /** Constants compare by value (type, shape and bytes), never by identity. */
  predicate TensorEqual(a: Tensor, b: Tensor) {
    a.dtype == b.dtype && a.shape == b.shape && a.data == b.data
  }

  /** Dispatches on the active variant: two arguments of different kinds are
      never equal, constants compare by value and type-and-shape pairs by
      dtype and dims; together that is value equality of arguments. */
  predicate ArgEqual(a: SignatureArg, b: SignatureArg): (r: bool)
    ensures r <==> a == b
  {
    match (a, b)
    case (ConstantValue(x), ConstantValue(y)) => TensorEqual(x, y)
    case (TypeAndShape(t, d), TypeAndShape(u, e)) => t == u && d == e
    case _ => false
  }

  /** Position-by-position comparison of two argument lists; it coincides
      with sequence equality. */
  predicate ArgsEqual(xs: seq<SignatureArg>, ys: seq<SignatureArg>): (r: bool)
    ensures r <==> xs == ys
    decreases |xs|
  {
    |xs| == |ys| &&
    (xs == [] ||
     (assert xs == [xs[0]] + xs[1..] && ys == [ys[0]] + ys[1..];
      ArgEqual(xs[0], ys[0]) && ArgsEqual(xs[1..], ys[1..])))
  }

  /** `Signature::operator==`: same name and equal argument lists, which is
      plain value equality, so a map keyed by `Signature` behaves as the hash
      map keyed by `operator==` does. */
  predicate SignatureEqual(a: Signature, b: Signature): (r: bool)
    ensures r <==> a == b
  {
    a.name == b.name && ArgsEqual(a.args, b.args)
  }

  /** A constant-tensor argument never equals a type-and-shape argument. */
  lemma KindsNeverEqual(a: SignatureArg, b: SignatureArg)
    requires a.ConstantValue? && b.TypeAndShape?
    ensures !ArgEqual(a, b) && !ArgEqual(b, a)
  {
  }

  lemma {:induction false} ArgsEqualIsPositionwise(xs: seq<SignatureArg>, ys: seq<SignatureArg>)
    ensures ArgsEqual(xs, ys) <==>
      |xs| == |ys| && forall i :: 0 <= i < |xs| ==> ArgEqual(xs[i], ys[i])
    decreases |xs|
  {
    if xs != [] && |xs| == |ys| {
      ArgsEqualIsPositionwise(xs[1..], ys[1..]);
      if forall i :: 0 <= i < |xs| ==> ArgEqual(xs[i], ys[i]) {
        forall i | 0 <= i < |xs| - 1 ensures ArgEqual(xs[1..][i], ys[1..][i]) {
          assert xs[1..][i] == xs[i + 1] && ys[1..][i] == ys[i + 1];
        }
      }
      if ArgsEqual(xs, ys) {
        forall i | 0 <= i < |xs| ensures ArgEqual(xs[i], ys[i]) {
          if i > 0 {
            assert xs[1..][i - 1] == xs[i] && ys[1..][i - 1] == ys[i];
          }
        }
      }
    }
  }

  /** Two signatures are equal exactly when the names match and the argument
      lists match position by position. */
  lemma SignatureEqualIsPositionwise(a: Signature, b: Signature)
    ensures SignatureEqual(a, b) <==>
      a.name == b.name && |a.args| == |b.args| &&
      forall i :: 0 <= i < |a.args| ==> ArgEqual(a.args[i], b.args[i])
  {
    ArgsEqualIsPositionwise(a.args, b.args);
  }

  /** Argument order matters: exchanging two distinct arguments, at any two
      positions of any argument list, gives a different signature. */
  lemma ArgumentOrderMatters(name: FunctionName, xs: seq<SignatureArg>, i: nat, j: nat)
    requires i < |xs| && j < |xs| && !ArgEqual(xs[i], xs[j])
    ensures !SignatureEqual(Signature(name, xs), Signature(name, xs[i := xs[j]][j := xs[i]]))
  {
    var swapped := xs[i := xs[j]][j := xs[i]];
    SignatureEqualIsPositionwise(Signature(name, xs), Signature(name, swapped));
    assert !ArgEqual(xs[j], swapped[j]);
  }

  // ---------------------------------------------------------------------
  // Signature::Hash. The numeric scheme below stands in for the original
  // one; what matters is that it is a 64-bit value and equal signatures
  // hash equal.

  const Uint64Modulus: nat := 0x1_0000_0000_0000_0000

  function Hash64Combine(h: nat, x: int): (r: nat)
    ensures r < Uint64Modulus
  {
    (h * 0x9E37_79B9_7F4A_7C15 + x) % Uint64Modulus
  }

  function HashInts(h: nat, xs: seq<int>): (r: nat)
    requires h < Uint64Modulus
    ensures r < Uint64Modulus
    decreases |xs|
  {
    if xs == [] then h else HashInts(Hash64Combine(h, xs[0]), xs[1..])
  }

  function HashArg(h: nat, a: SignatureArg): (r: nat)
    requires h < Uint64Modulus
    ensures r < Uint64Modulus
  {
    match a
    case TypeAndShape(t, dims) => HashInts(Hash64Combine(Hash64Combine(h, t), |dims|), dims)
    case ConstantValue(v) =>
      Hash64Combine(h, HashInts(0, seq(|v.data|, i requires 0 <= i < |v.data| => v.data[i] as int)))
  }

  function HashArgs(h: nat, args: seq<SignatureArg>): (r: nat)
    requires h < Uint64Modulus
    ensures r < Uint64Modulus
    decreases |args|
  {
    if args == [] then h else HashArgs(HashArg(h, args[0]), args[1..])
  }

  function Hash(sig: Signature): (r: nat)
    ensures r < Uint64Modulus
  {
    HashArgs(HashInts(0, seq(|sig.name|, i requires 0 <= i < |sig.name| => sig.name[i] as int)), sig.args)
  }

  /** Signatures that compare equal under `operator==` hash equal. */
  lemma HashRespectsEquality(a: Signature, b: Signature)
    requires SignatureEqual(a, b)
    ensures Hash(a) == Hash(b)
  {
  }

  // ---------------------------------------------------------------------
  // BuildSignature

  /** An argument of a compilation request (XlaCompiler::Argument), reduced
      to what the signature needs: a compile-time constant with its value, a
      runtime argument with its type and shape, or a kind the cache cannot
      classify. */
  datatype Argument =
    | ConstantArgument(constantValue: Tensor)
    | ParameterArgument(dtype: DataType, shape: seq<int>)
    | UnhandledArgument(kind: string)

  predicate Classifiable(a: Argument) {
    !a.UnhandledArgument?
  }

  function Classify(a: Argument): (r: SignatureArg)
    requires Classifiable(a)
  {
    match a
    case ConstantArgument(v) => ConstantValue(v)
    case ParameterArgument(t, dims) => TypeAndShape(t, dims)
  }

  lemma ClassifyIsInjective(a: Argument, b: Argument)
    requires Classifiable(a) && Classifiable(b)
    ensures Classify(a) == Classify(b) <==> a == b
  {
  }

  function BuildSignatureArgs(args: seq<Argument>): (r: StatusOr<seq<SignatureArg>>)
    ensures r.Value? <==> forall i :: 0 <= i < |args| ==> Classifiable(args[i])
    ensures r.Value? ==>
      |r.value| == |args| && forall i :: 0 <= i < |args| ==> r.value[i] == Classify(args[i])
    ensures r.Failure? ==> r.code == InvalidArgument
    decreases |args|
  {
    if args == [] then Value([])
    else if !Classifiable(args[0]) then
      Failure(InvalidArgument, "Unhandled argument kind in XlaCompilationCache: " + args[0].kind)
    else
      match BuildSignatureArgs(args[1..])
      case Failure(c, m) => Failure(c, m)
      case Value(rest) => Value([Classify(args[0])] + rest)
  }

  /** Fails with InvalidArgument exactly when some argument cannot be
      classified; otherwise keeps the name and maps each argument, in order,
      to its constant value or its type and shape. */
  function BuildSignature(func: FunctionName, args: seq<Argument>): (r: StatusOr<Signature>)
    ensures r.Value? <==> forall i :: 0 <= i < |args| ==> Classifiable(args[i])
    ensures r.Value? ==>
      && r.value.name == func
      && |r.value.args| == |args|
      && forall i :: 0 <= i < |args| ==> r.value.args[i] == Classify(args[i])
    ensures r.Failure? ==> r.code == InvalidArgument
  {
    match BuildSignatureArgs(args)
    case Failure(c, m) => Failure(c, m)
    case Value(sigArgs) => Value(Signature(func, sigArgs))
  }

  /** Two successful requests give equal (and so equal-hashing) signatures
      exactly when their names and argument lists are identical: a difference
      in any dtype, shape or constant value gives a different signature. */
  lemma BuildSignatureSeparates(f: FunctionName, a: seq<Argument>, g: FunctionName, b: seq<Argument>)
    requires BuildSignature(f, a).Value? && BuildSignature(g, b).Value?
    ensures SignatureEqual(BuildSignature(f, a).value, BuildSignature(g, b).value) <==> f == g && a == b
    ensures f == g && a == b ==> Hash(BuildSignature(f, a).value) == Hash(BuildSignature(g, b).value)
  {
    var s, t := BuildSignature(f, a).value, BuildSignature(g, b).value;
    if s == t {
      assert |a| == |b|;
      forall i | 0 <= i < |a| ensures a[i] == b[i] {
        assert s.args[i] == t.args[i];
        ClassifyIsInjective(a[i], b[i]);
      }
    }
  }
}
