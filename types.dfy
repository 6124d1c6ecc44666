/** Types shared by the SLATE modules of this model: the option map's
    entries, the execution targets, triangle and diagonal flags, and the
    usual Option/Result wrappers. */
module SlateTypes {

  datatype Option<+T> = None | Some(value: T)

  datatype Result<+R, +E> = Success(value: R) | Failure(error: E)

  /** Implementation targets (one per backend strategy). */
  datatype Target = HostTask | HostNest | HostBatch | Devices

  /** Which triangle of a Hermitian/triangular matrix is stored. */
  datatype Uplo = Lower | Upper

  /** Whether a triangular matrix has an implicit unit diagonal. */
  datatype Diag = NonUnit | Unit

  /** The options map `std::map<Option, Value>`: an absent key is `None`.
      UseFallbackSolver is read as an integer and converted to bool. */
  datatype Options = Options(
    lookahead: Option<int>,
    target: Option<Target>,
    tolerance: Option<real>,
    maxIterations: Option<int>,
    useFallbackSolver: Option<int>)

  const NoOptions := Options(None, None, None, None, None)

  /** `get_option(opts, key, default)`. */
  function GetOr<T>(o: Option<T>, default: T): (v: T)
    ensures o.Some? ==> v == o.value
    ensures o.None? ==> v == default
  {
    match o
    case Some(x) => x
    case None => default
  }

  function Min(a: int, b: int): (m: int)
    ensures m <= a && m <= b && (m == a || m == b)
  {
    if a <= b then a else b
  }
}
