/** The array methods the core uses: `findIndex`/`find`, `some` and `reverse`. */
module Seqs {
  import opened Wrappers

  /** `s.findIndex(p)`: the first position whose element satisfies `p`. */
  function FindIndex<T>(s: seq<T>, p: T -> bool): (r: Option<nat>)
    ensures r.Some? ==> r.value < |s| && p(s[r.value])
    ensures r.Some? ==> forall j | 0 <= j < r.value :: !p(s[j])
    ensures r.None? ==> forall j | 0 <= j < |s| :: !p(s[j])
  {
    if s == [] then None
    else if p(s[0]) then Some(0)
    else
      var rest := FindIndex(s[1..], p);
      if rest.Some? then Some(rest.value + 1) else None
  }

  /** `s.find(p)`: the first element satisfying `p`, or none. */
  function Find<T>(s: seq<T>, p: T -> bool): (r: Option<T>)
    ensures r.Some? <==> exists j | 0 <= j < |s| :: p(s[j])
    ensures r.Some? ==> p(r.value) && exists j | 0 <= j < |s| :: s[j] == r.value && forall k | 0 <= k < j :: !p(s[k])
  {
    var i := FindIndex(s, p);
    if i.Some? then Some(s[i.value]) else None
  }

  /** `[...s].reverse()`. */
  function Reverse<T>(s: seq<T>): (r: seq<T>)
    ensures |r| == |s|
  {
    if s == [] then [] else Reverse(s[1..]) + [s[0]]
  }

  lemma {:induction false} ReverseAt<T>(s: seq<T>, k: nat)
    requires k < |s|
    ensures Reverse(s)[k] == s[|s| - 1 - k]
  {
    if k < |s| - 1 {
      ReverseAt(s[1..], k);
    }
  }

  lemma ReverseAppend<T>(s: seq<T>, x: T)
    ensures Reverse(s + [x]) == [x] + Reverse(s)
  {
    var a, b := Reverse(s + [x]), [x] + Reverse(s);
    forall k | 0 <= k < |a| ensures a[k] == b[k] {
      ReverseAt(s + [x], k);
      if k > 0 { ReverseAt(s, k - 1); }
    }
  }

  lemma ReverseReverse<T>(s: seq<T>)
    ensures Reverse(Reverse(s)) == s
  {
    var r := Reverse(Reverse(s));
    forall k | 0 <= k < |s| ensures r[k] == s[k] {
      ReverseAt(Reverse(s), k);
      ReverseAt(s, |s| - 1 - k);
    }
  }
}
