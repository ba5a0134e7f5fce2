/** Comparing labels and filtering finalizers (pkg/utils/utils.go). */
module Utils {
  import opened Lists

  const DOMAIN := "kube-valet.io"

  /** Whether t occurs in s as a contiguous part. */
  predicate Contains(s: string, t: string) {
    exists i :: 0 <= i <= |s| && StartsAt(s, i, t)
  }

  predicate StartsAt(s: string, i: nat, t: string)
    requires i <= |s|
  {
    i + |t| <= |s| && s[i..i + |t|] == t
  }

  /** The labels other than kube-valet's own. */
  function Targetable(labels: map<string, string>): map<string, string> {
    map k | k in labels && !Contains(k, DOMAIN) :: labels[k]
  }

  /** Whether every targetable label of `labels` is in `others` with the same value; visited in any order. */
  method AllFoundIn(labels: map<string, string>, others: map<string, string>) returns (found: bool)
    ensures found <==> forall k :: k in Targetable(labels) ==> k in others && others[k] == labels[k]
  {
    hide Contains;
    var todo := labels.Keys;
    while todo != {}
      invariant todo <= labels.Keys
      invariant forall k :: k in Targetable(labels) && k !in todo ==> k in others && others[k] == labels[k]
    {
      var k :| k in todo;
      todo := todo - {k};
      if !Contains(k, DOMAIN) {
        if k !in others || labels[k] != others[k] {
          assert k in Targetable(labels);
          return false;
        }
      }
    }
    return true;
  }

  /** Two passes, one over each map. */
  method TargetableLabelsAreDifferent(m1: map<string, string>, m2: map<string, string>) returns (different: bool)
    ensures different <==> Targetable(m1) != Targetable(m2)
  {
    hide Contains;
    var forth := AllFoundIn(m1, m2);
    if !forth {
      return true;
    }
    var back := AllFoundIn(m2, m1);
    assert forth && back ==> Targetable(m1) == Targetable(m2);
    return !back;
  }

  method FilterValues(vs: seq<string>, f: string -> bool) returns (kept: seq<string>)
    ensures kept == Filter(f, vs)
  {
    kept := [];
    for i := 0 to |vs|
      invariant kept == Filter(f, vs[..i])
    {
      FilterAppend(f, vs[..i], vs[i]);
      assert vs[..i + 1] == vs[..i] + [vs[i]];
      if f(vs[i]) {
        kept := kept + [vs[i]];
      }
    }
    assert vs[..|vs|] == vs;
  }
}
