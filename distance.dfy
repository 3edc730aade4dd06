/** Entries of a distance field, the only value both metrics return. */
module Distance {

  /**
   * A single-precision distance: a finite length, or the sentinel
   * std::numeric_limits<float>::max() that marks an unreached vertex.
   */
  datatype Dist = Fin(len: nat) | Inf

  /** `d + w` in float: the sentinel plus an edge length stays the sentinel. */
  function Add(d: Dist, w: nat): (r: Dist)
    ensures r.Inf? <==> d.Inf?
  {
    match d
    case Fin(n) => Fin(n + w)
    case Inf => Inf
  }

  /** `a < b` on floats, with the sentinel above every finite length. */
  predicate Less(a: Dist, b: Dist)
    ensures Less(a, b) ==> a.Fin?
    ensures a.Fin? && b.Inf? ==> Less(a, b)
  {
    match (a, b)
    case (Fin(m), Fin(n)) => m < n
    case (Fin(_), Inf) => true
    case (Inf, _) => false
  }

  predicate LessEq(a: Dist, b: Dist)
  {
    !Less(b, a)
  }

  /** `std::vector<float> dist(n, max); dist[src] = 0;` */
  function InitialField(n: nat, src: nat): (f: seq<Dist>)
    requires src < n
    ensures |f| == n && f[src] == Fin(0)
    ensures forall i :: 0 <= i < n && i != src ==> f[i] == Inf
  {
    seq(n, i => if i == src then Fin(0) else Inf)
  }

  /** Adding a length never goes below the value added to, and a sum below the sentinel is finite. */
  lemma AddNotBelow(d: Dist, w: nat, e: Dist)
    ensures LessEq(d, Add(d, w))
    ensures Less(Add(d, w), e) ==> d.Fin? && Add(d, w) == Fin(d.len + w)
  {
  }
}
