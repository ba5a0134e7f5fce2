/** Pod assignment rules: the patch sent for a pod against applying the rules to it directly
    (pkg/controller/podassignment/manager.go, pkg/apis/assignments/v1alpha1/helpers.go). */
module PodRules {
  import opened Cluster
  import opened Lists

  const PROTECTED_KEY := "pod.initializer.kube-valet.io/protected"
  const PROTECTED_VALUE := "true"

  datatype MergeStrategy = Undefined | OverwriteAll | Other

  /** Affinity and tolerations are opaque: their text stands for them. */
  datatype Scheduling = Scheduling(
    mergeStrategy: MergeStrategy, nodeSelector: map<string, string>, affinity: Option<string>, tolerations: seq<string>)

  datatype Rule = Rule(target: map<string, string>, scheduling: Scheduling)

  /** The scheduling fields of a pod. */
  datatype PodSpec = PodSpec(nodeSelector: map<string, string>, affinity: Option<string>, tolerations: seq<string>)

  datatype Value = SelectorValue(selector: map<string, string>) | AffinityValue(affinity: string) | TolerationsValue(tolerations: seq<string>)

  datatype Op = Op(op: string, path: string, value: Value)

  const SELECTOR_PATH := "/spec/nodeSelector"
  const AFFINITY_PATH := "/spec/affinity"
  const TOLERATIONS_PATH := "/spec/tolerations"

  // ----- Direct application -----

  predicate Overwrites(s: Scheduling) { s.mergeStrategy != Other }

  function Applied(s: Scheduling, p: PodSpec): PodSpec {
    if !Overwrites(s) then p
    else PodSpec(if s.nodeSelector != map[] then s.nodeSelector else p.nodeSelector,
                 if s.affinity.Some? then s.affinity else p.affinity,
                 if s.tolerations != [] then s.tolerations else p.tolerations)
  }

  /** The rules applied one after the other. */
  function AppliedAll(rules: seq<Scheduling>, p: PodSpec): PodSpec {
    if rules == [] then p else AppliedAll(rules[1..], Applied(rules[0], p))
  }

  /** A pod in memory. */
  class PodObject {
    var nodeSelector: map<string, string>
    var affinity: Option<string>
    var tolerations: seq<string>

    constructor (p: PodSpec)
      ensures Spec() == p
    {
      nodeSelector, affinity, tolerations := p.nodeSelector, p.affinity, p.tolerations;
    }

    function Spec(): PodSpec
      reads this
    {
      PodSpec(nodeSelector, affinity, tolerations)
    }
  }

  function GetMergeStrategy(s: Scheduling): (m: MergeStrategy)
    ensures m == OverwriteAll <==> Overwrites(s)
  {
    if s.mergeStrategy == Undefined then OverwriteAll else s.mergeStrategy
  }

  method ApplyToPod(s: Scheduling, pod: PodObject)
    modifies pod
    ensures pod.Spec() == Applied(s, old(pod.Spec()))
  {
    match GetMergeStrategy(s)
    case OverwriteAll =>
      if |s.nodeSelector| != 0 {
        pod.nodeSelector := s.nodeSelector;
      }
      if s.affinity.Some? {
        pod.affinity := s.affinity;
      }
      if |s.tolerations| != 0 {
        pod.tolerations := s.tolerations;
      }
    case _ =>
  }

  // ----- The patch -----

  function OpsOf(s: Scheduling): seq<Op> {
    if !Overwrites(s) then []
    else
      Replace(s.nodeSelector != map[], SELECTOR_PATH, SelectorValue(s.nodeSelector))
      + Replace(s.affinity.Some?, AFFINITY_PATH, AffinityText(s.affinity))
      + Replace(s.tolerations != [], TOLERATIONS_PATH, TolerationsValue(s.tolerations))
  }

  function Replace(given: bool, path: string, value: Value): seq<Op> {
    if given then [Op("replace", path, value)] else []
  }

  method GetPatchOps(s: Scheduling) returns (ops: seq<Op>)
    ensures ops == OpsOf(s)
  {
    ops := [];
    match GetMergeStrategy(s)
    case OverwriteAll =>
      if |s.nodeSelector| != 0 {
        ops := ops + [Op("replace", SELECTOR_PATH, SelectorValue(s.nodeSelector))];
      }
      if s.affinity.Some? {
        ops := ops + [Op("replace", AFFINITY_PATH, AffinityValue(s.affinity.value))];
      }
      if |s.tolerations| != 0 {
        ops := ops + [Op("replace", TOLERATIONS_PATH, TolerationsValue(s.tolerations))];
      }
    case _ =>
  }

  function AllOps(rules: seq<Scheduling>): seq<Op> {
    if rules == [] then [] else AllOps(rules[..|rules| - 1]) + OpsOf(rules[|rules| - 1])
  }

  /** The pod as a document: the fields that are set, by path. */
  function Document(p: PodSpec): map<string, Value> {
    Put(Put(Put(map[], p.nodeSelector != map[], SELECTOR_PATH, SelectorValue(p.nodeSelector)),
            p.affinity.Some?, AFFINITY_PATH, AffinityText(p.affinity)),
        p.tolerations != [], TOLERATIONS_PATH, TolerationsValue(p.tolerations))
  }

  function AffinityText(a: Option<string>): Value { AffinityValue(if a.Some? then a.value else "") }

  function Put(document: map<string, Value>, given: bool, path: string, value: Value): map<string, Value> {
    if given then document[path := value] else document
  }

  /** One operation as sections 4.1 to 4.3 of RFC 6902 have it: "add" sets the member, "remove" and "replace" need it
      to be there. Other operations do not occur here and fail. */
  function OpApplied(document: map<string, Value>, op: Op): Option<map<string, Value>> {
    if op.op == "add" then Some(document[op.path := op.value])
    else if op.op == "remove" && op.path in document then Some(document - {op.path})
    else if op.op == "replace" && op.path in document then Some(document[op.path := op.value])
    else None
  }

  /** A failing operation fails the patch (section 5). */
  function Patched(document: map<string, Value>, ops: seq<Op>): Option<map<string, Value>>
    decreases |ops|
  {
    if ops == [] then Some(document)
    else
      var d := OpApplied(document, ops[0]);
      if d.None? then None else Patched(d.value, ops[1..])
  }

  // ----- Matching -----

  predicate Matches(r: Rule, labels: map<string, string>) {
    forall k | k in r.target :: k in labels && labels[k] == r.target[k]
  }

  predicate IsProtected(labels: map<string, string>) {
    PROTECTED_KEY in labels && labels[PROTECTED_KEY] == PROTECTED_VALUE
  }

  method TargetsPod(r: Rule, labels: map<string, string>) returns (matched: bool)
    ensures matched <==> Matches(r, labels)
  {
    matched := true;
    var todo := r.target.Keys;
    while todo != {}
      invariant todo <= r.target.Keys && matched
      invariant forall k :: k in r.target.Keys - todo ==> k in labels && labels[k] == r.target[k]
    {
      var k :| k in todo;
      todo := todo - {k};
      if k in labels {
        if r.target[k] != labels[k] {
          return false;
        }
      } else {
        return false;
      }
    }
  }

  method PodIsProtected(labels: map<string, string>) returns (r: bool)
    ensures r <==> IsProtected(labels)
  {
    var todo := labels.Keys;
    while todo != {}
      invariant todo <= labels.Keys
      invariant PROTECTED_KEY in labels && labels[PROTECTED_KEY] == PROTECTED_VALUE ==> PROTECTED_KEY in todo
    {
      var k :| k in todo;
      todo := todo - {k};
      if k == PROTECTED_KEY && labels[k] == PROTECTED_VALUE {
        return true;
      }
    }
    return false;
  }

  function MatchedBy(labels: map<string, string>): Rule -> bool { (r: Rule) => Matches(r, labels) }

  function Schedulings(rules: seq<Rule>): (r: seq<Scheduling>)
    ensures |r| == |rules| && forall i :: 0 <= i < |rules| ==> r[i] == rules[i].scheduling
  {
    seq(|rules|, i requires 0 <= i < |rules| => rules[i].scheduling)
  }

  /** The matching rules: those for the whole cluster, then those of the pod's namespace. */
  function Matching(cluster: seq<Rule>, namespaced: seq<Rule>, labels: map<string, string>): seq<Scheduling> {
    Schedulings(Filter(MatchedBy(labels), cluster)) + Schedulings(Filter(MatchedBy(labels), namespaced))
  }

  method MatchingRules(rules: seq<Rule>, labels: map<string, string>) returns (r: seq<Scheduling>)
    ensures r == Schedulings(Filter(MatchedBy(labels), rules))
  {
    r := [];
    for i := 0 to |rules|
      invariant r == Schedulings(Filter(MatchedBy(labels), rules[..i]))
    {
      FilterAppend(MatchedBy(labels), rules[..i], rules[i]);
      assert rules[..i + 1] == rules[..i] + [rules[i]];
      var targets := TargetsPod(rules[i], labels);
      if targets {
        r := r + [rules[i].scheduling];
      }
    }
    assert rules[..|rules|] == rules;
  }

  method GetPodAssignmentsScheduling(cluster: seq<Rule>, namespaced: seq<Rule>, labels: map<string, string>) returns (r: seq<Scheduling>)
    ensures r == Matching(cluster, namespaced, labels)
  {
    r := MatchingRules(cluster, labels);
    var own := MatchingRules(namespaced, labels);
    r := r + own;
  }

  lemma {:induction false} ProtectedLiterally(labels: map<string, string>)
    ensures IsProtected(labels) <==>
              "pod.initializer.kube-valet.io/protected" in labels && labels["pod.initializer.kube-valet.io/protected"] == "true"
  {
  }

  method GetPodSchedulingPatches(cluster: seq<Rule>, namespaced: seq<Rule>, labels: map<string, string>) returns (ops: seq<Op>)
    ensures ops == if IsProtected(labels) then [] else AllOps(Matching(cluster, namespaced, labels))
    ensures "pod.initializer.kube-valet.io/protected" in labels && labels["pod.initializer.kube-valet.io/protected"] == "true" ==> ops == []
  {
    ProtectedLiterally(labels);
    hide Matching, OpsOf, IsProtected;
    ops := [];
    var isProtected := PodIsProtected(labels);
    if !isProtected {
      var scheds := GetPodAssignmentsScheduling(cluster, namespaced, labels);
      for i := 0 to |scheds|
        invariant ops == AllOps(scheds[..i])
      {
        assert scheds[..i + 1][..i] == scheds[..i];
        var more := GetPatchOps(scheds[i]);
        ops := ops + more;
      }
      assert scheds[..|scheds|] == scheds;
    }
  }

  // ----- The patch refines direct application -----

  ghost predicate AllPresent(document: map<string, Value>, ops: seq<Op>) {
    forall i :: 0 <= i < |ops| ==> ops[i].path in document
  }

  lemma {:induction false} PatchedConcat(document: map<string, Value>, a: seq<Op>, b: seq<Op>)
    ensures Patched(document, a + b) == match Patched(document, a) case None => None case Some(d) => Patched(d, b)
    decreases |a|
  {
    if a == [] {
      assert a + b == b;
    } else {
      assert (a + b)[1..] == a[1..] + b;
      if OpApplied(document, a[0]).Some? {
        PatchedConcat(OpApplied(document, a[0]).value, a[1..], b);
      }
      hide OpApplied;
    }
  }

  predicate AllReplace(ops: seq<Op>) { forall i :: 0 <= i < |ops| ==> ops[i].op == "replace" }

  /** A patch of replace operations applies if and only if every path is there, and it keeps the set of paths. */
  lemma {:induction false} PatchedIff(document: map<string, Value>, ops: seq<Op>)
    requires AllReplace(ops)
    ensures Patched(document, ops).Some? <==> AllPresent(document, ops)
    ensures Patched(document, ops).Some? ==> Patched(document, ops).value.Keys == document.Keys
  {
    if ops != [] && ops[0].path in document {
      ReplaceIsNeither();
      var d := document[ops[0].path := ops[0].value];
      assert OpApplied(document, ops[0]) == Some(d);
      hide OpApplied;
      assert d.Keys == document.Keys;
      PatchedIff(d, ops[1..]);
      assert AllPresent(document, ops) <==> AllPresent(d, ops[1..]) by {
        assert forall i :: 0 <= i < |ops[1..]| ==> ops[1..][i] == ops[i + 1];
        assert forall i :: 0 < i < |ops| ==> ops[1..][i - 1] == ops[i];
      }
    }
  }

  lemma {:induction false} ReplaceIsNeither()
    ensures "replace" != "add" && "replace" != "remove"
  {
    assert "replace"[2] == 'p' && "remove"[2] == 'm';
  }

  lemma {:induction false} OpsAreReplaces(s: Scheduling)
    ensures AllReplace(OpsOf(s))
  {
  }

  /** What is sent for any rules: every operation is a replace, of one of the three fields, by a value of that field's kind. */
  lemma {:induction false} AllOpsAreReplaces(rules: seq<Scheduling>, i: nat)
    requires i < |AllOps(rules)|
    ensures var op := AllOps(rules)[i];
            && op.op == "replace"
            && (|| (op.path == "/spec/nodeSelector" && op.value.SelectorValue?)
                || (op.path == "/spec/affinity" && op.value.AffinityValue?)
                || (op.path == "/spec/tolerations" && op.value.TolerationsValue?))
  {
    if rules != [] {
      var rest := AllOps(rules[..|rules| - 1]);
      if i < |rest| {
        AllOpsAreReplaces(rules[..|rules| - 1], i);
      } else {
        assert AllOps(rules)[i] == OpsOf(rules[|rules| - 1])[i - |rest|];
        OneOpIsReplace(rules[|rules| - 1], i - |rest|);
      }
    }
    hide OpsOf;
  }

  lemma {:induction false} OneOpIsReplace(s: Scheduling, i: nat)
    requires i < |OpsOf(s)|
    ensures var op := OpsOf(s)[i];
            && op.op == "replace"
            && (|| (op.path == "/spec/nodeSelector" && op.value.SelectorValue?)
                || (op.path == "/spec/affinity" && op.value.AffinityValue?)
                || (op.path == "/spec/tolerations" && op.value.TolerationsValue?))
  {
    var a := Replace(s.nodeSelector != map[], SELECTOR_PATH, SelectorValue(s.nodeSelector));
    var b := Replace(s.affinity.Some?, AFFINITY_PATH, AffinityText(s.affinity));
    var c := Replace(s.tolerations != [], TOLERATIONS_PATH, TolerationsValue(s.tolerations));
    assert OpsOf(s) == a + b + c;
    assert OpsOf(s)[i] in a || OpsOf(s)[i] in b || OpsOf(s)[i] in c;
  }

  lemma {:induction false} AllOpsReplace(rules: seq<Scheduling>)
    ensures AllReplace(AllOps(rules))
  {
    forall i | 0 <= i < |AllOps(rules)| ensures AllOps(rules)[i].op == "replace" {
      AllOpsAreReplaces(rules, i);
    }
    hide AllOps;
  }

  lemma {:induction false} PatchOne(document: map<string, Value>, given: bool, path: string, value: Value, rest: seq<Op>)
    requires Patched(document, Replace(given, path, value) + rest).Some?
    ensures Patched(document, Replace(given, path, value) + rest) == Patched(Put(document, given, path, value), rest)
  {
    PatchedConcat(document, Replace(given, path, value), rest);
    if given {
      ReplaceIsNeither();
      assert Replace(given, path, value)[1..] == [];
      NoOps(document[path := value]);
    }
  }

  lemma {:induction false} PutCommutes(d: map<string, Value>, g: bool, x: string, v: Value, g': bool, y: string, w: Value)
    requires x != y
    ensures Put(Put(d, g, x, v), g', y, w) == Put(Put(d, g', y, w), g, x, v)
  {
    assert d[x := v][y := w] == d[y := w][x := v];
  }

  lemma {:induction false} PutTwice(d: map<string, Value>, g: bool, x: string, v: Value, g': bool, w: Value)
    ensures Put(Put(d, g, x, v), g', x, w) == Put(d, g || g', x, if g' then w else v)
  {
    assert d[x := v][x := w] == d[x := w];
  }

  /** Setting fields of the pod is setting paths of the document. */
  lemma {:induction false} AppliedDocument(s: Scheduling, p: PodSpec)
    requires Overwrites(s)
    ensures Document(Applied(s, p)) ==
              Put(Put(Put(Document(p), s.nodeSelector != map[], SELECTOR_PATH, SelectorValue(s.nodeSelector)),
                      s.affinity.Some?, AFFINITY_PATH, AffinityText(s.affinity)),
                  s.tolerations != [], TOLERATIONS_PATH, TolerationsValue(s.tolerations))
  {
    PathsDiffer();
    hide SELECTOR_PATH, AFFINITY_PATH, TOLERATIONS_PATH, Put;
    var x, y, z := SELECTOR_PATH, AFFINITY_PATH, TOLERATIONS_PATH;
    var a, b, c := SelectorValue(p.nodeSelector), AffinityText(p.affinity), TolerationsValue(p.tolerations);
    var a', b', c' := SelectorValue(s.nodeSelector), AffinityText(s.affinity), TolerationsValue(s.tolerations);
    var f, g, h := p.nodeSelector != map[], p.affinity.Some?, p.tolerations != [];
    var f', g', h' := s.nodeSelector != map[], s.affinity.Some?, s.tolerations != [];
    var d1 := Put(map[], f, x, a);
    var d2 := Put(d1, g, y, b);
    PutCommutes(d2, h, z, c, f', x, a');
    PutCommutes(d1, g, y, b, f', x, a');
    PutTwice(map[], f, x, a, f', a');
    var e1 := Put(map[], f || f', x, if f' then a' else a);
    PutCommutes(Put(e1, g, y, b), h, z, c, g', y, b');
    PutTwice(e1, g, y, b, g', b');
    var e2 := Put(e1, g || g', y, if g' then b' else b);
    PutTwice(e2, h, z, c, h', c');
    hide AffinityText;
  }

  lemma {:induction false} ThreeOps(document: map<string, Value>, f: bool, x: string, v: Value, g: bool, y: string, w: Value,
                                    h: bool, z: string, u: Value)
    requires Patched(document, Replace(f, x, v) + (Replace(g, y, w) + (Replace(h, z, u) + []))).Some?
    ensures Patched(document, Replace(f, x, v) + (Replace(g, y, w) + (Replace(h, z, u) + [])))
         == Some(Put(Put(Put(document, f, x, v), g, y, w), h, z, u))
  {
    hide Patched, Replace, Put;
    PatchOne(document, f, x, v, Replace(g, y, w) + (Replace(h, z, u) + []));
    PatchOne(Put(document, f, x, v), g, y, w, Replace(h, z, u) + []);
    PatchOne(Put(Put(document, f, x, v), g, y, w), h, z, u, []);
    NoOps(Put(Put(Put(document, f, x, v), g, y, w), h, z, u));
  }

  lemma {:induction false} OpsInTurn(s: Scheduling)
    requires Overwrites(s)
    ensures OpsOf(s) == Replace(s.nodeSelector != map[], SELECTOR_PATH, SelectorValue(s.nodeSelector))
                        + (Replace(s.affinity.Some?, AFFINITY_PATH, AffinityText(s.affinity))
                           + (Replace(s.tolerations != [], TOLERATIONS_PATH, TolerationsValue(s.tolerations)) + []))
  {
    hide Replace, AffinityText;
  }

  lemma {:induction false} OneRule(s: Scheduling, p: PodSpec)
    requires AllPresent(Document(p), OpsOf(s))
    ensures Patched(Document(p), OpsOf(s)) == Some(Document(Applied(s, p)))
  {
    OpsAreReplaces(s);
    PatchedIff(Document(p), OpsOf(s));
    if Overwrites(s) {
      OpsInTurn(s);
      AppliedDocument(s, p);
      hide *;
      ThreeOps(Document(p), s.nodeSelector != map[], SELECTOR_PATH, SelectorValue(s.nodeSelector),
               s.affinity.Some?, AFFINITY_PATH, AffinityText(s.affinity),
               s.tolerations != [], TOLERATIONS_PATH, TolerationsValue(s.tolerations));
    } else {
      hide Document, AllPresent, Patched, AllReplace;
      NoOps(Document(p));
    }
  }

  lemma {:induction false} NoOps(document: map<string, Value>)
    ensures Patched(document, []) == Some(document)
  {
  }

  lemma {:induction false} PathsDiffer()
    ensures SELECTOR_PATH != AFFINITY_PATH && AFFINITY_PATH != TOLERATIONS_PATH && SELECTOR_PATH != TOLERATIONS_PATH
  {
    assert SELECTOR_PATH[6] == 'n' && AFFINITY_PATH[6] == 'a' && TOLERATIONS_PATH[6] == 't';
  }

  lemma {:induction false} AppliedAllAppend(rules: seq<Scheduling>, s: Scheduling, p: PodSpec)
    ensures AppliedAll(rules + [s], p) == Applied(s, AppliedAll(rules, p))
  {
    if rules != [] {
      assert (rules + [s])[1..] == rules[1..] + [s];
      AppliedAllAppend(rules[1..], s, Applied(rules[0], p));
      hide Applied;
    } else {
      assert [s][1..] == [];
      assert AppliedAll([s][1..], Applied(s, p)) == Applied(s, p);
    }
  }

  lemma {:induction false} AllPresentConcat(document: map<string, Value>, a: seq<Op>, b: seq<Op>)
    ensures AllPresent(document, a + b) <==> AllPresent(document, a) && AllPresent(document, b)
  {
    assert forall i :: 0 <= i < |a| ==> (a + b)[i] == a[i];
    assert forall i :: 0 <= i < |b| ==> (a + b)[|a| + i] == b[i];
  }

  /** The concatenated operations apply if and only if the pod already has every field that some rule sets,
      and then they leave exactly the document that applying the rules one by one leaves. */
  lemma {:induction false} PatchRefinesApplication(rules: seq<Scheduling>, p: PodSpec)
    ensures Patched(Document(p), AllOps(rules)) ==
              if AllPresent(Document(p), AllOps(rules)) then Some(Document(AppliedAll(rules, p))) else None
  {
    hide Document, Applied, OpsOf, Patched, AllPresent, AllReplace;
    if rules == [] {
      NoOps(Document(p));
      NothingMissing(Document(p));
    } else {
      var rest, last := rules[..|rules| - 1], rules[|rules| - 1];
      assert rules == rest + [last];
      PatchRefinesApplication(rest, p);
      PatchedConcat(Document(p), AllOps(rest), OpsOf(last));
      AllPresentConcat(Document(p), AllOps(rest), OpsOf(last));
      AllOpsReplace(rest);
      OpsAreReplaces(last);
      PatchedIff(Document(p), AllOps(rest));
      AppliedAllAppend(rest, last, p);
      if AllPresent(Document(p), AllOps(rest)) {
        var q := AppliedAll(rest, p);
        SamePresent(Document(p), Document(q), OpsOf(last));
        PatchedIff(Document(q), OpsOf(last));
        if AllPresent(Document(q), OpsOf(last)) {
          OneRule(last, q);
        }
      }
    }
  }

  /** A pod without node selector, and a rule that sets one: the patch fails where applying the rule does not. */
  lemma {:induction false} MissingFieldFails()
    ensures var p := PodSpec(map[], None, []);
            var s := Scheduling(OverwriteAll, map["disk" := "ssd"], None, []);
            Patched(Document(p), AllOps([s])) == None && AppliedAll([s], p).nodeSelector == map["disk" := "ssd"]
  {
    var p := PodSpec(map[], None, []);
    var s := Scheduling(OverwriteAll, map["disk" := "ssd"], None, []);
    assert [s][..0] == [] && AllOps([]) == [];
    var op := Op("replace", SELECTOR_PATH, SelectorValue(s.nodeSelector));
    assert "disk" in s.nodeSelector;
    assert AllOps([s]) == [op];
    assert Document(p) == map[];
    assert [s][1..] == [] && AppliedAll([s][1..], Applied(s, p)) == Applied(s, p);
  }

  lemma {:induction false} NothingMissing(document: map<string, Value>)
    ensures AllPresent(document, [])
  {
  }

  lemma {:induction false} SamePresent(d: map<string, Value>, e: map<string, Value>, ops: seq<Op>)
    requires d.Keys == e.Keys
    ensures AllPresent(d, ops) <==> AllPresent(e, ops)
  {
    assert forall path :: path in d <==> path in e;
  }

  /** A rule with a merge strategy other than the default one has no effect; otherwise it sets the fields it gives. */
  lemma {:induction false} OnlyOverwritingRulesApply(s: Scheduling, p: PodSpec)
    ensures s.mergeStrategy == Other ==> OpsOf(s) == [] && Applied(s, p) == p
    ensures s.mergeStrategy in {Undefined, OverwriteAll} ==>
              && (s.nodeSelector != map[] ==> Applied(s, p).nodeSelector == s.nodeSelector)
              && (s.affinity.Some? ==> Applied(s, p).affinity == s.affinity)
              && (s.tolerations != [] ==> Applied(s, p).tolerations == s.tolerations)
  {
  }

  /** A rule among others counts exactly if the pod carries every one of its target labels with its value. */
  lemma {:induction false} RuleCountsExactly(before: seq<Rule>, r: Rule, after: seq<Rule>, namespaced: seq<Rule>, labels: map<string, string>)
    ensures var rest := Schedulings(Filter(MatchedBy(labels), after)) + Schedulings(Filter(MatchedBy(labels), namespaced));
            Matching(before + [r] + after, namespaced, labels)
              == Schedulings(Filter(MatchedBy(labels), before))
                 + (if exists k :: k in r.target && (k !in labels || labels[k] != r.target[k]) then [] else [r.scheduling]) + rest
  {
    FilterConcat(MatchedBy(labels), before + [r], after);
    FilterConcat(MatchedBy(labels), before, [r]);
    var a, b, c := Filter(MatchedBy(labels), before), Filter(MatchedBy(labels), [r]), Filter(MatchedBy(labels), after);
    OneRuleMatched(r, labels);
    hide Filter, Matches, Schedulings;
    SchedulingsConcat(a + b, c);
    SchedulingsConcat(a, b);
  }

  lemma {:induction false} SchedulingsConcat(a: seq<Rule>, b: seq<Rule>)
    ensures Schedulings(a + b) == Schedulings(a) + Schedulings(b)
  {
  }

  lemma {:induction false} OneRuleMatched(r: Rule, labels: map<string, string>)
    ensures Schedulings(Filter(MatchedBy(labels), [r]))
         == if exists k :: k in r.target && (k !in labels || labels[k] != r.target[k]) then [] else [r.scheduling]
  {
    assert [r][1..] == [];
    assert Filter(MatchedBy(labels), [r]) == if Matches(r, labels) then [r] else [];
  }

  // ----- Who wins -----

  function Lookup(document: map<string, Value>, path: string): Option<Value> {
    if path in document then Some(document[path]) else None
  }

  /** The value the last rule that sets the path sets it to. */
  function LastSet(rules: seq<Scheduling>, path: string): Option<Value> {
    if rules == [] then None
    else
      var own := SetBy(rules[|rules| - 1], path);
      if own.Some? then own else LastSet(rules[..|rules| - 1], path)
  }

  /** What one rule sets the path to. */
  function SetBy(s: Scheduling, path: string): Option<Value> {
    if !Overwrites(s) then None
    else if path == SELECTOR_PATH && s.nodeSelector != map[] then Some(SelectorValue(s.nodeSelector))
    else if path == AFFINITY_PATH && s.affinity.Some? then Some(AffinityValue(s.affinity.value))
    else if path == TOLERATIONS_PATH && s.tolerations != [] then Some(TolerationsValue(s.tolerations))
    else None
  }

  lemma {:induction false} OneRuleSets(s: Scheduling, p: PodSpec, path: string)
    ensures Lookup(Document(Applied(s, p)), path) ==
              if SetBy(s, path).Some? then SetBy(s, path) else Lookup(Document(p), path)
  {
    PathsDiffer();
    if Overwrites(s) {
      AppliedDocument(s, p);
    }
    hide Document, Applied;
  }

  /** Field by field, the last matching rule that sets it wins; a field nobody sets stays. */
  lemma {:induction false} LastRuleWins(rules: seq<Scheduling>, p: PodSpec, path: string)
    ensures Lookup(Document(AppliedAll(rules, p)), path) ==
              if LastSet(rules, path).Some? then LastSet(rules, path) else Lookup(Document(p), path)
  {
    hide Document, Applied, SetBy, Lookup;
    if rules != [] {
      var rest, last := rules[..|rules| - 1], rules[|rules| - 1];
      assert rules == rest + [last];
      LastRuleWins(rest, p, path);
      AppliedAllAppend(rest, last, p);
      OneRuleSets(last, AppliedAll(rest, p), path);
    }
  }

  lemma {:induction false} LastSetConcat(a: seq<Scheduling>, b: seq<Scheduling>, path: string)
    ensures LastSet(a + b, path) == if LastSet(b, path).Some? then LastSet(b, path) else LastSet(a, path)
  {
    hide SetBy;
    if b == [] {
      assert a + b == a;
    } else {
      assert (a + b)[..|a + b| - 1] == a + b[..|b| - 1];
      LastSetConcat(a, b[..|b| - 1], path);
    }
  }

  /** A field that a rule of the pod's namespace sets does not depend on the rules for the whole cluster,
      nor on the order in which any index lists those. */
  lemma {:induction false} NamespaceWins(cluster: seq<Rule>, cluster': seq<Rule>, namespaced: seq<Rule>, labels: map<string, string>,
                                         p: PodSpec, path: string)
    requires LastSet(Schedulings(Filter(MatchedBy(labels), namespaced)), path).Some?
    ensures Lookup(Document(AppliedAll(Matching(cluster, namespaced, labels), p)), path)
         == LastSet(Schedulings(Filter(MatchedBy(labels), namespaced)), path)
         == Lookup(Document(AppliedAll(Matching(cluster', namespaced, labels), p)), path)
  {
    hide Document, Lookup, LastSet, AppliedAll, Schedulings, Filter;
    var own := Schedulings(Filter(MatchedBy(labels), namespaced));
    LastRuleWins(Matching(cluster, namespaced, labels), p, path);
    LastRuleWins(Matching(cluster', namespaced, labels), p, path);
    LastSetConcat(Schedulings(Filter(MatchedBy(labels), cluster)), own, path);
    LastSetConcat(Schedulings(Filter(MatchedBy(labels), cluster')), own, path);
  }
}
