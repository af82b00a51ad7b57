/**
 The judgement read off the schema instead of the validator's errors: of a body that fails, exactly what is reported,
 and which deviations are put to use, in their order.
 */
module Verdicts {
  import opened Wrappers
  import opened JsonTree
  import opened Deviations
  import opened Judging

  // A deviation excuses the leaf.
  ghost predicate Excused(leaf: Leaf, excuse: Excuse) {
    excuse(leaf) != None
  }

  ghost function LabelOf(leaf: Leaf, excuse: Excuse): seq<string> {
    if Excused(leaf, excuse) then [excuse(leaf).value] else []
  }

  ghost function MessageOf(leaf: Leaf, excuse: Excuse): seq<Message> {
    if Excused(leaf, excuse) then [] else [Unexcused(leaf)]
  }

  // The reference's branch of a nullable reference, for a value that is not null.
  ghost predicate Reference(check: Check, b: nat)
    requires check.Choice?
  {
    && !check.one && check.leaf.instance != Null && |check.branches| == 2 && b < 2
    && b !in check.nulls && 1 - b in check.nulls
  }

  ghost predicate HasReference(check: Check)
    requires check.Choice?
  {
    Reference(check, 0) || Reference(check, 1)
  }

  ghost function ReferenceOf(check: Check): (b: nat)
    requires check.Choice? && HasReference(check)
    ensures Reference(check, b) && b < |check.branches|
  {
    if Reference(check, 0) then 0 else 1
  }

  // The first branch that the deviations make pass.
  ghost function FirstRelaxed(branches: seq<Check>, excuse: Excuse): (b: nat)
    ensures b <= |branches| && (b < |branches| ==> Relaxed(branches[b], excuse))
    ensures forall i :: 0 <= i < b ==> !Relaxed(branches[i], excuse)
  {
    if branches == [] || Relaxed(branches[0], excuse) then 0
    else
      var b := FirstRelaxed(branches[1..], excuse);
      assert forall i :: 0 < i < |branches| ==> branches[i] == branches[1..][i - 1];
      b + 1
  }

  /**
   The deviations that a check uses. A choice that passes uses those of its first branch to pass, or of its reference;
   one that fails uses none.
   */
  ghost function Labels(check: Check, excuse: Excuse): seq<string>
    decreases check, 0
  {
    match check
    case Assertion(leaf, holds) => if holds then [] else LabelOf(leaf, excuse)
    case Every(parts) => AllLabels(parts, excuse)
    case Choice(_, branches, _, leaf) =>
      if Strict(check) || !Relaxed(check, excuse) then []
      else if branches == [] || StrictBranches(branches) != {} then LabelOf(leaf, excuse)
      else
        var b := if HasReference(check) then ReferenceOf(check) else FirstRelaxed(branches, excuse);
        if b < |branches| then Labels(branches[b], excuse) else []
  }

  ghost function AllLabels(parts: seq<Check>, excuse: Excuse): seq<string>
    decreases parts, 0
  {
    if parts == [] then [] else Labels(parts[0], excuse) + AllLabels(parts[1..], excuse)
  }

  // The branch of the child that stands out among the errors of every branch.
  ghost function Salient(branches: seq<Check>, relevant: Relevance): nat {
    var context := Context(branches, 0);
    if relevant(context) < |context| then context[relevant(context)].branch else 0
  }

  /**
   What is reported of a check. A choice that fails reports what its reference does, or its most relevant branch when
   none passes, or that several pass and only one may.
   */
  ghost function Messages(check: Check, excuse: Excuse, relevant: Relevance): seq<Message>
    decreases check, 0
  {
    match check
    case Assertion(leaf, holds) => if holds then [] else MessageOf(leaf, excuse)
    case Every(parts) => AllMessages(parts, excuse, relevant)
    case Choice(_, branches, _, leaf) =>
      if Strict(check) || Relaxed(check, excuse) then []
      else if branches == [] || StrictBranches(branches) != {} then [Unexcused(leaf)]
      else if HasReference(check) then Messages(branches[ReferenceOf(check)], excuse, relevant)
      else if RelaxedBranches(branches, excuse) != {} then
        [Ambiguous(leaf, |RelaxedBranches(branches, excuse)|)]
      else if Salient(branches, relevant) < |branches| then
        Messages(branches[Salient(branches, relevant)], excuse, relevant)
      else []
  }

  ghost function AllMessages(parts: seq<Check>, excuse: Excuse, relevant: Relevance): seq<Message>
    decreases parts, 0
  {
    if parts == [] then [] else Messages(parts[0], excuse, relevant) + AllMessages(parts[1..], excuse, relevant)
  }

  // Among some errors, one of them stands out.
  ghost predicate Chooses(relevant: Relevance) {
    forall context :: context != [] ==> relevant(context) < |context|
  }

  ghost function Meant(check: Check, excuse: Excuse, relevant: Relevance): Verdict {
    Verdict(Messages(check, excuse, relevant), Labels(check, excuse))
  }

  /** `_collect` on a validator's errors gives exactly this. */
  lemma {:induction false} VerdictExactly(check: Check, excuse: Excuse, relevant: Relevance)
    requires Genuine(check) && Chooses(relevant)
    ensures JudgeAll(Errors(check), excuse, relevant) == Meant(check, excuse, relevant)
    decreases check, 1
  {
    match check
    case Assertion(leaf, holds) => JudgeOne(Failed(0, leaf), excuse, relevant);
    case Every(parts) =>
      PartsExactly(parts, excuse, relevant);
      hide Errors, JudgeAll, Messages, Labels;
      EveryMeant(parts, excuse, relevant);
    case Choice(_, branches, _, _) =>
      forall i: nat | i < |branches|
        ensures JudgeAll(Errors(branches[i]), excuse, relevant) == Meant(branches[i], excuse, relevant)
      {
        VerdictExactly(branches[i], excuse, relevant);
      }
      hide Errors, JudgeAll, Messages, Labels, Genuine;
      ChoiceExactly(check, excuse, relevant) by { GenuineBranches(check); }
  }

  lemma EveryMeant(parts: seq<Check>, excuse: Excuse, relevant: Relevance)
    ensures Errors(Every(parts)) == ErrorsOf(parts)
    ensures Meant(Every(parts), excuse, relevant)
         == Verdict(AllMessages(parts, excuse, relevant), AllLabels(parts, excuse))
  {
    hide Relaxed, Strict, AllMessages, AllLabels;
  }

  lemma {:induction false} PartsExactly(parts: seq<Check>, excuse: Excuse, relevant: Relevance)
    requires Chooses(relevant) && forall i :: 0 <= i < |parts| ==> Genuine(parts[i])
    ensures JudgeAll(ErrorsOf(parts), excuse, relevant)
         == Verdict(AllMessages(parts, excuse, relevant), AllLabels(parts, excuse))
    decreases parts, 0
  {
    hide Errors, Judge, Messages, Labels;
    if parts != [] {
      VerdictExactly(parts[0], excuse, relevant);
      PartsExactly(parts[1..], excuse, relevant);
      JudgeAllConcat(Errors(parts[0]), ErrorsOf(parts[1..]), excuse, relevant);
    }
  }

  lemma GenuineBranches(check: Check)
    requires check.Choice? && Genuine(check)
    ensures forall i: nat :: i < |check.branches| ==> Genuine(check.branches[i])
  {
  }

  // A choice, given what its branches come to.
  lemma ChoiceExactly(check: Check, excuse: Excuse, relevant: Relevance)
    requires check.Choice? && Genuine(check) && Chooses(relevant)
    requires forall i: nat :: i < |check.branches| ==>
               JudgeAll(Errors(check.branches[i]), excuse, relevant) == Meant(check.branches[i], excuse, relevant)
    ensures JudgeAll(Errors(check), excuse, relevant) == Meant(check, excuse, relevant)
  {
    hide Judge, Errors, JudgeAll, Messages, Labels, Relaxed, Strict, Meant, Genuine;
    var branches, leaf := check.branches, check.leaf;
    forall i: nat | i < |branches| ensures Errors(branches[i]) == [] <==> Strict(branches[i]) {
      ErrorsExactly(branches[i]);
    }
    ChoiceErrors(check.one, branches, check.nulls, leaf);
    StrictChoice(check);
    var error := Composite(0, leaf, check.one, NonNullBranch(check.one, branches, check.nulls, leaf.instance),
        Context(branches, 0));
    JudgeOne(Failed(0, leaf), excuse, relevant);
    JudgeOne(error, excuse, relevant);
    var valid := StrictBranches(branches);
    if valid == {} && branches != [] {
      forall i: nat | i < |branches| ensures Errors(branches[i]) != [] { assert i !in valid; }
      CompositeExactly(check, excuse, relevant);
    } else {
      LeafMeant(check, excuse, relevant);
    }
  }

  lemma StrictChoice(check: Check)
    requires check.Choice?
    ensures Strict(check) <==>
              StrictBranches(check.branches) != {} && (check.one ==> |StrictBranches(check.branches)| == 1)
  {
  }

  // A choice of no branches, or with branches that hold, is one leaf.
  lemma LeafMeant(check: Check, excuse: Excuse, relevant: Relevance)
    requires check.Choice? && Genuine(check)
    requires check.branches == [] || StrictBranches(check.branches) != {}
    ensures Meant(check, excuse, relevant)
         == if Strict(check) then Verdict([], []) else JudgeLeaf(check.leaf, excuse)
    ensures Judge(Failed(0, check.leaf), excuse, relevant) == JudgeLeaf(check.leaf, excuse)
  {
    if StrictBranches(check.branches) != {} {
      HoldingRelaxed(check, excuse);
      StrictChoice(check);
      hide Relaxed, Strict, StrictBranches, Genuine;
    }
  }

  lemma CompositeExactly(check: Check, excuse: Excuse, relevant: Relevance)
    requires check.Choice? && Genuine(check) && Chooses(relevant)
    requires check.branches != [] && StrictBranches(check.branches) == {}
    requires forall i: nat :: i < |check.branches| ==>
               && Errors(check.branches[i]) != []
               && JudgeAll(Errors(check.branches[i]), excuse, relevant) == Meant(check.branches[i], excuse, relevant)
    ensures var error := Composite(0, check.leaf, check.one,
        NonNullBranch(check.one, check.branches, check.nulls, check.leaf.instance), Context(check.branches, 0));
            Judge(error, excuse, relevant) == Meant(check, excuse, relevant)
  {
    hide Errors, JudgeAll, JudgeBranch, Strict, Judge, Meant, Genuine, Relaxed;
    var branches := check.branches;
    var context := Context(branches, 0);
    GenuineBranches(check);
    ContextIndices(branches, 0);
    forall b: nat | b < |branches|
      ensures JudgeBranch(context, b, excuse, relevant) == Meant(branches[b], excuse, relevant)
      ensures Meant(branches[b], excuse, relevant).remaining == [] <==> Relaxed(branches[b], excuse)
    {
      JudgeInContext(branches, 0, b, excuse, relevant);
      JudgementExact(branches[b], excuse, relevant);
    }
    ClosestIsIndex(context, relevant);
    hide Context, Indices;
    var passing := Passing(context, excuse, relevant);
    assert check == Choice(check.one, branches, check.nulls, check.leaf);
    assert passing == RelaxedBranches(branches, excuse) by {
      forall b: nat ensures b in passing <==> b in RelaxedBranches(branches, excuse) {}
    }
    RelaxedComposite(check.one, branches, check.nulls, check.leaf, excuse);
    SalientIs(branches, relevant);
    CompositeMeant(check, excuse, relevant);
    JudgedComposite(check, context, excuse, relevant);
    OnlyIsReference(check);
    if !HasReference(check) && passing != {} { LeastIsFirst(branches, excuse); }
  }

  lemma OnlyIsReference(check: Check)
    requires check.Choice?
    ensures NonNullBranch(check.one, check.branches, check.nulls, check.leaf.instance)
         == if HasReference(check) then Some(ReferenceOf(check)) else None
  {
  }

  lemma SalientIs(branches: seq<Check>, relevant: Relevance)
    requires Chooses(relevant) && Context(branches, 0) != []
    ensures Salient(branches, relevant) == Closest(Context(branches, 0), relevant)
  {
    hide Context;
  }

  lemma LeastIsFirst(branches: seq<Check>, excuse: Excuse)
    requires RelaxedBranches(branches, excuse) != {}
    ensures FirstRelaxed(branches, excuse) == Least(RelaxedBranches(branches, excuse)) < |branches|
  {
    hide Relaxed;
    var passing := RelaxedBranches(branches, excuse);
    var b, m := FirstRelaxed(branches, excuse), Least(passing);
    assert m in passing;
    if b < |branches| { assert b in passing; }
  }

  lemma JudgedComposite(check: Check, context: seq<Err>, excuse: Excuse, relevant: Relevance)
    requires check.Choice? && context != []
    ensures var only := NonNullBranch(check.one, check.branches, check.nulls, check.leaf.instance);
            var passing := Passing(context, excuse, relevant);
            var closest := Closest(context, relevant);
            Judge(Composite(0, check.leaf, check.one, only, context), excuse, relevant)
            == if only.Some? then
                 var v := JudgeBranch(context, only.value, excuse, relevant);
                 if v.remaining != [] then Verdict(v.remaining, []) else v
               else if passing == {} then Verdict(JudgeBranch(context, closest, excuse, relevant).remaining, [])
               else if !check.one || |passing| == 1 then
                 Verdict([], JudgeBranch(context, Least(passing), excuse, relevant).absorbed)
               else Verdict([Ambiguous(check.leaf, |passing|)], [])
  {
    hide JudgeBranch, Passing, NonNullBranch;
  }

  // What a choice none of whose branches holds comes to.
  lemma CompositeMeant(check: Check, excuse: Excuse, relevant: Relevance)
    requires check.Choice? && check.branches != [] && StrictBranches(check.branches) == {}
    ensures var relaxed := RelaxedBranches(check.branches, excuse);
            var first, salient := FirstRelaxed(check.branches, excuse), Salient(check.branches, relevant);
            Meant(check, excuse, relevant)
            == if Relaxed(check, excuse) then
                 var b := if HasReference(check) then ReferenceOf(check) else first;
                 Verdict([], if b < |check.branches| then Meant(check.branches[b], excuse, relevant).absorbed else [])
               else if HasReference(check) then
                 Verdict(Meant(check.branches[ReferenceOf(check)], excuse, relevant).remaining, [])
               else if relaxed != {} then Verdict([Ambiguous(check.leaf, |relaxed|)], [])
               else if salient < |check.branches| then
                 Verdict(Meant(check.branches[salient], excuse, relevant).remaining, [])
               else Verdict([], [])
  {
    hide Relaxed, StrictBranches, HasReference, ReferenceOf, FirstRelaxed, Salient;
    NotStrict(check);
    hide Strict;
  }

  lemma NotStrict(check: Check)
    requires check.Choice? && StrictBranches(check.branches) == {}
    ensures !Strict(check)
  {
  }
}
