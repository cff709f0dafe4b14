/** The three sub-modules a feature module can consist of. */
module Kinds {

  datatype Kind = Public | Impl | Testing {

    /** The directory name of the sub-module and the last segment of its
        Gradle path. */
    function Name(): (r: string)
      ensures |r| > 0 && '$' !in r && '"' !in r && ':' !in r && '/' !in r
      ensures '\n' !in r && '\r' !in r
    {
      match this
      case Public => "public"
      case Impl => "impl"
      case Testing => "testing"
    }
  }

  /** Every kind, in the order the creators handle them. */
  const AllKinds: seq<Kind> := [Public, Impl, Testing]

  /** Distinct kinds live in distinct directories. */
  lemma NamesDistinct(a: Kind, b: Kind)
    ensures a.Name() == b.Name() <==> a == b
  {
  }

  /** The kinds a sub-module of the given kind depends on: an implementation
      sees the public API, a testing module sees both. */
  function Upstream(k: Kind): (r: seq<Kind>)
    ensures k !in r
    ensures forall u | u in r :: KindIndex(u) < KindIndex(k)
  {
    match k
    case Public => []
    case Impl => [Public]
    case Testing => [Public, Impl]
  }

  /** The position of a kind in `AllKinds`; dependencies only point to
      earlier positions. */
  function KindIndex(k: Kind): (i: nat)
    ensures i < |AllKinds| && AllKinds[i] == k
  {
    match k
    case Public => 0
    case Impl => 1
    case Testing => 2
  }
}
