/** Optional values, used for a file that may not exist and for searches that may fail. */
module Wrappers {
  datatype Option<+T> = None | Some(value: T)

  /** `[f(x).value for x in xs if f(x) is not None]`: the values `f` yields, in order. */
  function FilterMap<T, U>(xs: seq<T>, f: T -> Option<U>): (r: seq<U>)
    ensures |r| <= |xs|
    ensures r == [] <==> forall k :: 0 <= k < |xs| ==> f(xs[k]).None?
  {
    if xs == [] then []
    else (if f(xs[0]).Some? then [f(xs[0]).value] else []) + FilterMap(xs[1..], f)
  }

  /** The first value comes from the first element `f` yields one for. */
  lemma {:induction false} FirstOfFilterMap<T, U>(xs: seq<T>, f: T -> Option<U>)
    requires FilterMap(xs, f) != []
    ensures exists k :: 0 <= k < |xs| && f(xs[k]).Some? && (forall j :: 0 <= j < k ==> f(xs[j]).None?)
                        && FilterMap(xs, f)[0] == f(xs[k]).value
    decreases |xs|
  {
    if f(xs[0]).None? {
      var tail := xs[1..];
      FirstOfFilterMap(tail, f);
      var k :| 0 <= k < |tail| && f(tail[k]).Some? && (forall j :: 0 <= j < k ==> f(tail[j]).None?)
               && FilterMap(tail, f)[0] == f(tail[k]).value;
      assert forall j :: 1 <= j < k + 1 ==> xs[j] == tail[j - 1];
      assert xs[k + 1] == tail[k];
    }
  }

  /** The last value comes from the last element `f` yields one for. */
  lemma {:induction false} LastOfFilterMap<T, U>(xs: seq<T>, f: T -> Option<U>)
    requires FilterMap(xs, f) != []
    ensures var r := FilterMap(xs, f);
      exists k :: 0 <= k < |xs| && f(xs[k]).Some? && (forall j :: k < j < |xs| ==> f(xs[j]).None?)
                  && r[|r| - 1] == f(xs[k]).value
    decreases |xs|
  {
    var tail := xs[1..];
    var rest := FilterMap(tail, f);
    var r := FilterMap(xs, f);
    assert r == (if f(xs[0]).Some? then [f(xs[0]).value] else []) + rest;
    if rest != [] {
      LastOfFilterMap(tail, f);
      var k :| 0 <= k < |tail| && f(tail[k]).Some? && (forall j :: k < j < |tail| ==> f(tail[j]).None?)
               && rest[|rest| - 1] == f(tail[k]).value;
      assert r[|r| - 1] == rest[|rest| - 1];
      assert forall j :: k + 1 < j < |xs| ==> xs[j] == tail[j - 1];
      assert xs[k + 1] == tail[k];
    } else {
      assert forall j :: 0 < j < |xs| ==> xs[j] == tail[j - 1];
    }
  }
}
