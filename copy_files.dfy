/** `copyFiles(copyConfig, publishPath)` (src/index.js): the configured
    copy rules are taken in order; a rule whose source does not exist is
    passed over with a warning, a "file" rule copies one file, a "dir" rule
    copies a directory tree, a rule of any other type does nothing, and the
    first copy that throws ends the whole run with that error. The file
    system is reduced to the set of source paths that exist and the set of
    rules whose copy throws (for a reason of its source or its target). */
module CopyFiles {

  /** One entry of `copyConfig`. */
  datatype CopyRule = CopyRule(kind: string, source: string, target: string, description: string)

  /** A copy the run performs: `copyFileSync` or a recursive `cp`. */
  datatype CopyAction = CopyFile(source: string, target: string) | CopyDir(source: string, target: string)

  /** The copies performed, in order, and whether a rule threw. */
  datatype CopyOutcome =
    | Copied(done: seq<CopyAction>)
    | Failed(done: seq<CopyAction>, rule: CopyRule)

  /** A rule whose type names one of the two copy operations. */
  predicate Copies(r: CopyRule) { r.kind == "file" || r.kind == "dir" }

  function ActionOf(r: CopyRule): CopyAction
    requires Copies(r)
  {
    if r.kind == "file" then CopyFile(r.source, r.target) else CopyDir(r.source, r.target)
  }

  /** `o` with the copies `done` performed before it. */
  function After(done: seq<CopyAction>, o: CopyOutcome): (r: CopyOutcome)
    ensures r.Copied? == o.Copied? && r.done == done + o.done
    ensures r.Failed? ==> r.rule == o.rule
  {
    match o
    case Copied(d) => Copied(done + d)
    case Failed(d, rule) => Failed(done + d, rule)
  }

  /** What running the rules does, rule by rule. */
  function PlanCopies(rules: seq<CopyRule>, present: set<string>, broken: set<CopyRule>): CopyOutcome
    decreases |rules|
  {
    if rules == [] then Copied([])
    else
      var r := rules[0];
      if r.source !in present || !Copies(r) then PlanCopies(rules[1..], present, broken)
      else if r in broken then Failed([], r)
      else After([ActionOf(r)], PlanCopies(rules[1..], present, broken))
  }

  lemma AfterAfter(d1: seq<CopyAction>, d2: seq<CopyAction>, o: CopyOutcome)
    ensures After(d1, After(d2, o)) == After(d1 + d2, o)
  {
    assert d1 + (d2 + o.done) == d1 + d2 + o.done;
  }

  lemma AfterNothing(o: CopyOutcome)
    ensures After([], o) == o
  {
    assert [] + o.done == o.done;
  }

  /** The loop of `copyFiles`. */
  method CopyFiles(rules: seq<CopyRule>, present: set<string>, broken: set<CopyRule>)
    returns (outcome: CopyOutcome)
    ensures outcome == PlanCopies(rules, present, broken)
  {
    var done: seq<CopyAction> := [];
    var i := 0;
    AfterNothing(PlanCopies(rules, present, broken));
    while i < |rules|
      invariant 0 <= i <= |rules|
      invariant PlanCopies(rules, present, broken) == After(done, PlanCopies(rules[i..], present, broken))
      decreases |rules| - i
    {
      var r := rules[i];
      assert rules[i..][1..] == rules[i + 1..];
      if r.source !in present {
        i := i + 1;
        continue;
      }
      if r.kind == "file" || r.kind == "dir" {
        if r in broken {
          return Failed(done, r);
        }
        AfterAfter(done, [ActionOf(r)], PlanCopies(rules[i + 1..], present, broken));
        done := done + [ActionOf(r)];
      }
      i := i + 1;
    }
    outcome := Copied(done);
  }

  /** Running a concatenation runs the first part, then, unless it threw,
      the second. */
  lemma {:induction false} PlanConcat(pre: seq<CopyRule>, post: seq<CopyRule>, present: set<string>, broken: set<CopyRule>)
    ensures PlanCopies(pre + post, present, broken)
         == if PlanCopies(pre, present, broken).Copied?
            then After(PlanCopies(pre, present, broken).done, PlanCopies(post, present, broken))
            else PlanCopies(pre, present, broken)
    decreases |pre|
  {
    if pre == [] {
      assert pre + post == post;
      AfterNothing(PlanCopies(post, present, broken));
    } else {
      assert (pre + post)[1..] == pre[1..] + post;
      PlanConcat(pre[1..], post, present, broken);
      var r := pre[0];
      if r.source in present && Copies(r) && r !in broken {
        var rest := PlanCopies(pre[1..], present, broken);
        if rest.Copied? {
          AfterAfter([ActionOf(r)], rest.done, PlanCopies(post, present, broken));
        }
      }
    }
  }

  /** Every copy performed comes from a copying rule whose source exists and
      whose copy did not throw, and a rule reported as failed is a copying
      rule whose source exists and whose copy throws. */
  lemma {:induction false} CopiesComeFromRules(rules: seq<CopyRule>, present: set<string>, broken: set<CopyRule>)
    ensures forall a :: a in PlanCopies(rules, present, broken).done ==>
              a.source in present
              && exists r :: r in rules && Copies(r) && r !in broken && ActionOf(r) == a
    ensures PlanCopies(rules, present, broken).Failed? ==>
              var r := PlanCopies(rules, present, broken).rule;
              r in rules && r.source in present && r in broken && Copies(r)
    decreases |rules|
  {
    if rules != [] {
      CopiesComeFromRules(rules[1..], present, broken);
      var r := rules[0];
      forall a | a in PlanCopies(rules[1..], present, broken).done
        ensures exists r' :: r' in rules && Copies(r') && r' !in broken && ActionOf(r') == a
      {
        var r' :| r' in rules[1..] && Copies(r') && r' !in broken && ActionOf(r') == a;
        assert r' in rules;
      }
      if r.source in present && Copies(r) && r !in broken {
        var o := PlanCopies(rules[1..], present, broken);
        assert forall a :: a in [ActionOf(r)] + o.done ==> a == ActionOf(r) || a in o.done;
      }
    }
  }

  /** A rule whose source does not exist is skipped: the run is the run
      without it. */
  lemma MissingSourceSkipped(pre: seq<CopyRule>, r: CopyRule, post: seq<CopyRule>, present: set<string>, broken: set<CopyRule>)
    requires r.source !in present
    ensures PlanCopies(pre + [r] + post, present, broken) == PlanCopies(pre + post, present, broken)
  {
    PlanConcat(pre, [r] + post, present, broken);
    PlanConcat(pre, post, present, broken);
    assert pre + [r] + post == pre + ([r] + post);
    assert ([r] + post)[1..] == post;
  }

  /** A rule of any type other than "file" or "dir" does nothing. */
  lemma OtherTypeDoesNothing(pre: seq<CopyRule>, r: CopyRule, post: seq<CopyRule>, present: set<string>, broken: set<CopyRule>)
    requires !Copies(r)
    ensures PlanCopies(pre + [r] + post, present, broken) == PlanCopies(pre + post, present, broken)
  {
    PlanConcat(pre, [r] + post, present, broken);
    PlanConcat(pre, post, present, broken);
    assert pre + [r] + post == pre + ([r] + post);
    assert ([r] + post)[1..] == post;
  }

  /** The first copy that throws ends the run: the rules after it are never
      looked at, and the copies made before it are reported. */
  lemma FailureStopsLaterRules(pre: seq<CopyRule>, r: CopyRule, post: seq<CopyRule>, present: set<string>, broken: set<CopyRule>)
    requires PlanCopies(pre, present, broken).Copied?
    requires r.source in present && r in broken && Copies(r)
    ensures PlanCopies(pre + [r] + post, present, broken)
         == Failed(PlanCopies(pre, present, broken).done, r)
  {
    PlanConcat(pre, [r] + post, present, broken);
    assert pre + [r] + post == pre + ([r] + post);
  }

  /** A rule whose source exists and copies cleanly is performed right
      after the copies of the rules before it. */
  lemma CopyFollowsEarlierCopies(pre: seq<CopyRule>, r: CopyRule, present: set<string>, broken: set<CopyRule>)
    requires PlanCopies(pre, present, broken).Copied?
    requires r.source in present && r !in broken && Copies(r)
    ensures PlanCopies(pre + [r], present, broken)
         == Copied(PlanCopies(pre, present, broken).done + [ActionOf(r)])
  {
    PlanConcat(pre, [r], present, broken);
    assert [ActionOf(r)] + [] == [ActionOf(r)];
  }
}
