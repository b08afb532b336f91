/** Shared wrappers and return codes. */
module Common {
  datatype Option<+T> = None | Some(value: T)

  // Return codes of the client library that the models mention.
  const ZOK: int := 0
  const ZSYSTEMERROR: int := -1
  const ZRUNTIMEINCONSISTENCY: int := -2
  const ZCONNECTIONLOSS: int := -4
  const ZMARSHALLINGERROR: int := -5
  const ZUNIMPLEMENTED: int := -6
  const ZOPERATIONTIMEOUT: int := -7
  const ZBADARGUMENTS: int := -8
  const ZINVALIDSTATE: int := -9
  const ZNONODE: int := -101
  const ZSESSIONEXPIRED: int := -112
  const ZAUTHFAILED: int := -115
  const ZCLOSING: int := -116
  const ZNOTHING: int := -117

  lemma Assoc<T>(a: seq<T>, b: seq<T>, c: seq<T>)
    ensures a + b + c == a + (b + c)
  {
  }

  /**
    * Guards a definition: `forall k {:trigger Key(k)} :: Key(k) ==> P` is P, but the solver
    * looks inside only where a proof mentions a key.
    */
  ghost predicate Key(k: int) {
    k == k
  }
}
