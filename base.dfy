/** Small shared vocabulary: optional values, bytes and the bounds of a
    Kotlin/JVM `Int`. */
module Base {

  /** A Kotlin nullable value: `None` stands for `null`. */
  datatype Option<+T> = None | Some(value: T) {
    function GetOr(default: T): T {
      match this
      case Some(v) => v
      case None => default
    }
  }

  /** One octet of file or archive content. */
  type byte = bv8

  /** `Int.MAX_VALUE` and `Int.MIN_VALUE` of the JVM. */
  const IntMax: int := 0x7fff_ffff
  const IntMin: int := -0x8000_0000

  /** Kotlin `Int` addition of one, which wraps around at `Int.MAX_VALUE`. */
  function IncInt(x: int): (r: int)
    requires IntMin <= x <= IntMax
    ensures IntMin <= r <= IntMax
    ensures x < IntMax ==> r == x + 1
    ensures x == IntMax ==> r == IntMin
  {
    if x == IntMax then IntMin else x + 1
  }

  /** True if no element occurs twice. */
  predicate NoDuplicates<T(==)>(s: seq<T>) {
    forall i, j :: 0 <= i < j < |s| ==> s[i] != s[j]
  }
}
