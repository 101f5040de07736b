/** Which elements of a simulator's array a slot reads and writes: all of them for index -1, and otherwise the one
it names. */
module Windows {
  import opened Wire
  import opened Dataref
  import opened Simulator

  /** A slot for one element reads that element, as a slot for the whole array does. */
  lemma OneElement(v: seq<nat>, ty: int, n: nat, j: nat)
    requires Known(ty) && j < |v| && j < n
    ensures ReadWindow(v, ty, j, n) == [v[j]] == [ReadWindow(v, ty, -1, n)[j]]
  {
  }

  /** The whole array, with missing values (zeroes for bytes) behind its end. */
  lemma WholeArray(v: seq<nat>, ty: int, n: nat)
    requires Known(ty) && n >= 1
    ensures var r := ReadWindow(v, ty, -1, n);
      if |v| >= n then r == v[..n]
      else r[..|v|] == v && forall k :: |v| <= k < n ==> r[k] == if ty == XPTYPE_BYTE_ARR then 0 else MissCode(ty)
  {
  }

  /** After writing one element that element reads as written, and every other one as before. */
  lemma WriteOne(v: seq<nat>, ty: int, n: nat, j: nat, x: nat)
    requires Known(ty) && j < |v| && j < n && x != MissCode(ty)
    ensures var w := WriteWindow(v, ty, j, [x]);
      && ReadWindow(w, ty, j, n) == [x]
      && (forall k :: 0 <= k < n && k != j ==> ReadWindow(w, ty, k, n) == ReadWindow(v, ty, k, n))
      && ReadWindow(w, ty, -1, n) == ReadWindow(v, ty, -1, n)[j := x]
  {
  }

  /** Writing the whole array sets every element that is there and not missing, and leaves the others. */
  lemma WriteWhole(v: seq<nat>, ty: int, vals: seq<nat>, k: nat)
    requires k < |v|
    ensures WriteWindow(v, ty, -1, vals)[k] == if k < |vals| && vals[k] != MissCode(ty) then vals[k] else v[k]
  {
  }

  /** Nothing is written for a missing value, nor behind the end of the array. */
  lemma WriteNothing(v: seq<nat>, ty: int, j: nat, x: nat)
    requires x == MissCode(ty) || j >= |v|
    ensures WriteWindow(v, ty, j, [x]) == v
  {
  }

  /** An array written element by element is the array written as a whole. */
  function OneByOne(v: seq<nat>, ty: int, vals: seq<nat>): (r: seq<nat>)
    ensures |r| == |v|
  {
    if vals == [] then v
    else WriteWindow(OneByOne(v, ty, vals[..|vals| - 1]), ty, |vals| - 1, [vals[|vals| - 1]])
  }

  lemma {:induction false} WholeIsOneByOne(v: seq<nat>, ty: int, vals: seq<nat>)
    ensures OneByOne(v, ty, vals) == WriteWindow(v, ty, -1, vals)
  {
    if vals != [] {
      var last := |vals| - 1;
      WholeIsOneByOne(v, ty, vals[..last]);
      var u, w := WriteWindow(v, ty, -1, vals[..last]), WriteWindow(v, ty, -1, vals);
      assert forall k :: 0 <= k < |v| ==> w[k] == if k == last && vals[last] != MissCode(ty) then vals[last] else u[k];
    } else {
      assert WriteWindow(v, ty, -1, vals) == v;
    }
  }
}
