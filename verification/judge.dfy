/** Judging a failing body by the declared deviations (`_collect`, `_judge`, `_non_null_branch`). */
module Judging {
  import opened Wrappers
  import opened JsonTree
  import opened Deviations

  /**
   A schema applied to a value, as a validator sees it: assertions that hold or not, all of which must hold, and
   choices between branches. `nulls` are the branches spelled `{"enum": [null]}`.
   */
  datatype Check =
    | Assertion(leaf: Leaf, holds: bool)
    | Every(parts: seq<Check>)
    | Choice(one: bool, branches: seq<Check>, nulls: set<nat>, leaf: Leaf)

  // Validity as draft 4 of the validation specification has it (sections 5.5.3 to 5.5.5).
  predicate Strict(check: Check) {
    match check
    case Assertion(_, holds) => holds
    case Every(parts) => forall i :: 0 <= i < |parts| ==> Strict(parts[i])
    case Choice(one, branches, _, _) =>
      if one then |StrictBranches(branches)| == 1 else StrictBranches(branches) != {}
  }

  function StrictBranches(branches: seq<Check>): set<nat> {
    set i: nat | i < |branches| && Strict(branches[i])
  }

  // A null branch holds of null and of nothing else.
  ghost predicate Genuine(check: Check) {
    match check
    case Assertion(_, _) => true
    case Every(parts) => forall i :: 0 <= i < |parts| ==> Genuine(parts[i])
    case Choice(_, branches, nulls, leaf) =>
      forall i: nat :: i < |branches| ==>
        Genuine(branches[i]) && (i in nulls ==> (Strict(branches[i]) <==> leaf.instance == Null))
  }

  // ----- the validator's errors

  /**
   An error, with the errors of the branches when it is a choice none of whose branches held. `branch` is the
   error's own place in the choice it is part of, `relative_schema_path[0]`.
   */
  datatype Err =
    | Failed(branch: nat, leaf: Leaf)
    | Composite(branch: nat, leaf: Leaf, one: bool, only: Option<nat>, context: seq<Err>)

  /** `_non_null_branch`: for a nullable reference and a value that is not null, the reference's branch. */
  function NonNullBranch(one: bool, branches: seq<Check>, nulls: set<nat>, instance: Json): Option<nat> {
    if one || instance == Null || |branches| != 2 then None
    else if 1 in nulls && 0 !in nulls then Some(0)
    else if 0 in nulls && 1 !in nulls then Some(1)
    else None
  }

  // `validator.iter_errors`: nothing of what holds, and one error for a choice that fails.
  function Errors(check: Check): seq<Err> {
    match check
    case Assertion(leaf, holds) => if holds then [] else [Failed(0, leaf)]
    case Every(parts) => ErrorsOf(parts)
    case Choice(one, branches, nulls, leaf) =>
      var valid := set i: nat | i < |branches| && Errors(branches[i]) == [];
      if valid == {} then
        if branches == [] then [Failed(0, leaf)]
        else [Composite(0, leaf, one, NonNullBranch(one, branches, nulls, leaf.instance), Context(branches, 0))]
      else if !one || |valid| == 1 then []
      else [Failed(0, leaf)]
  }

  function ErrorsOf(parts: seq<Check>): seq<Err> {
    if parts == [] then [] else Errors(parts[0]) + ErrorsOf(parts[1..])
  }

  // The errors of every branch, each under its branch's index.
  function Context(branches: seq<Check>, at: nat): seq<Err> {
    if branches == [] then [] else Tagged(Errors(branches[0]), at) + Context(branches[1..], at + 1)
  }

  function Tagged(errors: seq<Err>, at: nat): seq<Err> {
    seq(|errors|, i requires 0 <= i < |errors| => errors[i].(branch := at))
  }

  lemma {:induction false} ErrorsOfNothing(parts: seq<Check>)
    ensures ErrorsOf(parts) == [] <==> forall i :: 0 <= i < |parts| ==> Errors(parts[i]) == []
  {
    hide Errors;
    if parts != [] {
      ErrorsOfNothing(parts[1..]);
      if ErrorsOf(parts) == [] {
        forall i | 0 <= i < |parts| ensures Errors(parts[i]) == [] {
          if i > 0 { assert parts[i] == parts[1..][i - 1]; }
        }
      }
    }
  }

  // A check has errors exactly when it is not valid.
  lemma {:induction false} ErrorsExactly(check: Check)
    ensures Errors(check) == [] <==> Strict(check)
  {
    match check
    case Assertion(_, _) =>
    case Every(parts) =>
      ErrorsOfNothing(parts);
      forall i | 0 <= i < |parts| ensures Errors(parts[i]) == [] <==> Strict(parts[i]) { ErrorsExactly(parts[i]); }
    case Choice(one, branches, _, _) =>
      forall i: nat | i < |branches| ensures Errors(branches[i]) == [] <==> Strict(branches[i]) {
        ErrorsExactly(branches[i]);
      }
      assert (set i: nat | i < |branches| && Errors(branches[i]) == []) == StrictBranches(branches);
  }

  // ----- the judgement

  // What no deviation excuses, and which deviations excused the rest.
  datatype Message = Unexcused(leaf: Leaf) | Ambiguous(leaf: Leaf, passing: nat)

  datatype Verdict = Verdict(remaining: seq<Message>, absorbed: seq<string>)

  function Join(a: Verdict, b: Verdict): Verdict {
    Verdict(a.remaining + b.remaining, a.absorbed + b.absorbed)
  }

  // The declaration's first deviation that matches a leaf, by its label.
  type Excuse = Leaf -> Option<string>

  // `best_match`'s first choice among the children, by position; it is left open.
  type Relevance = seq<Err> -> nat

  function JudgeLeaf(leaf: Leaf, excuse: Excuse): Verdict {
    match excuse(leaf)
    case Some(label_) => Verdict([], [label_])
    case None => Verdict([Unexcused(leaf)], [])
  }

  function Closest(context: seq<Err>, relevant: Relevance): nat
    requires context != []
  {
    var i := relevant(context);
    if i < |context| then context[i].branch else context[0].branch
  }

  function Indices(context: seq<Err>): set<nat> {
    set i | 0 <= i < |context| :: context[i].branch
  }

  /** What `_judge` decides of one error. */
  function Judge(error: Err, excuse: Excuse, relevant: Relevance): Verdict {
    match error
    case Failed(_, leaf) => JudgeLeaf(leaf, excuse)
    case Composite(_, leaf, one, only, context) =>
      if context == [] then JudgeLeaf(leaf, excuse)
      else if only.Some? then
        var v := JudgeBranch(context, only.value, excuse, relevant);
        if v.remaining != [] then Verdict(v.remaining, []) else v
      else
        var passing := Passing(context, excuse, relevant);
        if passing == {} then
          Verdict(JudgeBranch(context, Closest(context, relevant), excuse, relevant).remaining, [])
        else if !one || |passing| == 1 then
          Verdict([], JudgeBranch(context, Least(passing), excuse, relevant).absorbed)
        else Verdict([Ambiguous(leaf, |passing|)], [])
  }

  function Least(s: set<nat>): (m: nat)
    requires s != {}
    ensures m in s && forall n :: n in s ==> m <= n
  {
    assert exists m :: m in s && forall n :: n in s ==> m <= n by {
      var x :| x in s;
      LeastExists(s, x);
    }
    var m :| m in s && forall n :: n in s ==> m <= n;
    m
  }

  lemma {:induction false} LeastExists(s: set<nat>, x: nat)
    requires x in s
    ensures exists m :: m in s && forall n :: n in s ==> m <= n
    decreases x
  {
    if y :| y in s && y < x { LeastExists(s, y); }
  }

  // The branches all of whose errors are excused.
  function Passing(context: seq<Err>, excuse: Excuse, relevant: Relevance): set<nat>
    decreases context
  {
    set b | b in Indices(context) && JudgeBranch(context, b, excuse, relevant).remaining == []
  }

  // All of one branch's errors.
  function JudgeBranch(context: seq<Err>, b: nat, excuse: Excuse, relevant: Relevance): Verdict
    decreases context, b
  {
    if context == [] then Verdict([], [])
    else
      var rest := JudgeBranch(context[1..], b, excuse, relevant);
      if context[0].branch == b then Join(Judge(context[0], excuse, relevant), rest) else rest
  }

  /** `_collect` */
  function JudgeAll(errors: seq<Err>, excuse: Excuse, relevant: Relevance): Verdict {
    if errors == [] then Verdict([], [])
    else Join(Judge(errors[0], excuse, relevant), JudgeAll(errors[1..], excuse, relevant))
  }

  lemma {:induction false} JudgeAllConcat(a: seq<Err>, b: seq<Err>, excuse: Excuse, relevant: Relevance)
    ensures JudgeAll(a + b, excuse, relevant) == Join(JudgeAll(a, excuse, relevant), JudgeAll(b, excuse, relevant))
  {
    hide Judge;
    if a == [] {
      assert a + b == b;
    } else {
      assert (a + b)[1..] == a[1..] + b;
      JudgeAllConcat(a[1..], b, excuse, relevant);
    }
  }

  lemma {:induction false} JudgeBranchConcat(a: seq<Err>, c: seq<Err>, b: nat, excuse: Excuse, relevant: Relevance)
    ensures JudgeBranch(a + c, b, excuse, relevant)
         == Join(JudgeBranch(a, b, excuse, relevant), JudgeBranch(c, b, excuse, relevant))
  {
    hide Judge;
    if a == [] {
      assert a + c == c;
    } else {
      assert (a + c)[1..] == a[1..] + c;
      JudgeBranchConcat(a[1..], c, b, excuse, relevant);
    }
  }

  lemma JudgeIgnoresPlace(error: Err, at: nat, excuse: Excuse, relevant: Relevance)
    ensures Judge(error.(branch := at), excuse, relevant) == Judge(error, excuse, relevant)
  {
  }

  lemma {:induction false} JudgeTagged(errors: seq<Err>, at: nat, b: nat, excuse: Excuse, relevant: Relevance)
    ensures JudgeBranch(Tagged(errors, at), b, excuse, relevant)
         == if b == at then JudgeAll(errors, excuse, relevant) else Verdict([], [])
  {
    hide Judge;
    if errors != [] {
      assert Tagged(errors, at)[1..] == Tagged(errors[1..], at);
      JudgeIgnoresPlace(errors[0], at, excuse, relevant);
      JudgeTagged(errors[1..], at, b, excuse, relevant);
    }
  }

  // A branch's errors in a choice's context are judged as if the branch stood alone.
  lemma {:induction false} JudgeInContext(branches: seq<Check>, at: nat, b: nat, excuse: Excuse, relevant: Relevance)
    ensures JudgeBranch(Context(branches, at), b, excuse, relevant)
         == if at <= b < at + |branches| then JudgeAll(Errors(branches[b - at]), excuse, relevant) else Verdict([], [])
  {
    hide Judge, Errors, JudgeAll;
    if branches != [] {
      var first, rest := Tagged(Errors(branches[0]), at), Context(branches[1..], at + 1);
      JudgeBranchConcat(first, rest, b, excuse, relevant);
      JudgeTagged(Errors(branches[0]), at, b, excuse, relevant);
      JudgeInContext(branches[1..], at + 1, b, excuse, relevant);
    }
  }

  lemma {:induction false} ContextIndices(branches: seq<Check>, at: nat)
    requires forall i :: 0 <= i < |branches| ==> Errors(branches[i]) != []
    ensures forall b :: b in Indices(Context(branches, at)) <==> at <= b < at + |branches|
    ensures branches != [] ==> Context(branches, at) != []
  {
    hide Errors;
    if branches != [] {
      var errors := Errors(branches[0]);
      var first, rest := Tagged(errors, at), Context(branches[1..], at + 1);
      ContextIndices(branches[1..], at + 1);
      assert first[0].branch == at;
      IndicesConcat(first, rest);
      assert Indices(first) == {at};
    }
  }

  lemma IndicesConcat(a: seq<Err>, b: seq<Err>)
    ensures Indices(a + b) == Indices(a) + Indices(b)
  {
    var all := a + b;
    forall n | n in Indices(a) ensures n in Indices(all) {
      var i :| 0 <= i < |a| && a[i].branch == n;
      assert all[i] == a[i];
    }
    forall n | n in Indices(b) ensures n in Indices(all) {
      var i :| 0 <= i < |b| && b[i].branch == n;
      assert all[|a| + i] == b[i];
    }
  }

  // ----- what it means

  // Validity once declared deviations excuse what they name: the specification of the judgement.
  ghost predicate Relaxed(check: Check, excuse: Excuse) {
    match check
    case Assertion(leaf, holds) => holds || excuse(leaf).Some?
    case Every(parts) => forall i :: 0 <= i < |parts| ==> Relaxed(parts[i], excuse)
    case Choice(one, branches, nulls, leaf) =>
      var only := NonNullBranch(one, branches, nulls, leaf.instance);
      var strict := StrictBranches(branches);
      if only.Some? then Relaxed(branches[only.value], excuse)
      else if branches == [] then excuse(leaf).Some?
      else if !one then exists i :: 0 <= i < |branches| && Relaxed(branches[i], excuse)
      else if strict != {} then |strict| == 1 || excuse(leaf).Some?
      else |RelaxedBranches(branches, excuse)| == 1
  }

  ghost function RelaxedBranches(branches: seq<Check>, excuse: Excuse): set<nat> {
    set i: nat | i < |branches| && Relaxed(branches[i], excuse)
  }

  /** No error remains exactly when the body satisfies the relaxed schema; no failing choice is ever dropped. */
  lemma {:induction false} JudgementExact(check: Check, excuse: Excuse, relevant: Relevance)
    requires Genuine(check)
    ensures JudgeAll(Errors(check), excuse, relevant).remaining == [] <==> Relaxed(check, excuse)
  {
    match check
    case Assertion(leaf, holds) => JudgeOne(Failed(0, leaf), excuse, relevant);
    case Every(parts) =>
      hide Errors, Judge, JudgeAll;
      forall i | 0 <= i < |parts|
        ensures JudgeAll(Errors(parts[i]), excuse, relevant).remaining == [] <==> Relaxed(parts[i], excuse)
      {
        JudgementExact(parts[i], excuse, relevant);
      }
      PartsJudged(parts, excuse, relevant);
      ErrorsOfEvery(parts);
    case Choice(one, branches, nulls, leaf) => ChoiceExact(one, branches, nulls, leaf, excuse, relevant);
  }

  lemma JudgeOne(error: Err, excuse: Excuse, relevant: Relevance)
    ensures JudgeAll([error], excuse, relevant) == Judge(error, excuse, relevant)
    ensures JudgeAll([], excuse, relevant) == Verdict([], [])
  {
    hide Judge;
    assert [error][1..] == [];
  }

  lemma ErrorsOfEvery(parts: seq<Check>)
    ensures Errors(Every(parts)) == ErrorsOf(parts)
  {
  }

  lemma {:induction false} PartsJudged(parts: seq<Check>, excuse: Excuse, relevant: Relevance)
    ensures JudgeAll(ErrorsOf(parts), excuse, relevant).remaining == []
       <==> forall i :: 0 <= i < |parts| ==> JudgeAll(Errors(parts[i]), excuse, relevant).remaining == []
  {
    hide Errors, Judge, JudgeAll;
    if parts == [] {
      JudgeOne(Failed(0, Leaf("", "", Null)), excuse, relevant);
    } else {
      var rest := parts[1..];
      PartsJudged(rest, excuse, relevant);
      JudgeAllConcat(Errors(parts[0]), ErrorsOf(rest), excuse, relevant);
      assert forall i :: 0 < i < |parts| ==> parts[i] == rest[i - 1];
    }
  }

  lemma {:induction false} ChoiceExact(one: bool, branches: seq<Check>, nulls: set<nat>, leaf: Leaf, excuse: Excuse,
                                       relevant: Relevance)
    requires Genuine(Choice(one, branches, nulls, leaf))
    ensures JudgeAll(Errors(Choice(one, branches, nulls, leaf)), excuse, relevant).remaining == []
       <==> Relaxed(Choice(one, branches, nulls, leaf), excuse)
    decreases Choice(one, branches, nulls, leaf), 0
  {
    forall i: nat | i < |branches|
      ensures Errors(branches[i]) == [] <==> Strict(branches[i])
      ensures JudgeAll(Errors(branches[i]), excuse, relevant).remaining == [] <==> Relaxed(branches[i], excuse)
      ensures Strict(branches[i]) ==> Relaxed(branches[i], excuse)
    {
      ErrorsExactly(branches[i]);
      JudgementExact(branches[i], excuse, relevant);
      JudgeOne(Failed(0, leaf), excuse, relevant);
    }
    var valid := StrictBranches(branches);
    ChoiceErrors(one, branches, nulls, leaf);
    hide Strict, Judge, Errors, JudgeAll;
    if valid == {} && branches != [] {
      forall i: nat | i < |branches| ensures Errors(branches[i]) != [] { assert i !in valid; }
      CompositeExact(one, branches, nulls, leaf, excuse, relevant);
      JudgeOne(Composite(0, leaf, one, NonNullBranch(one, branches, nulls, leaf.instance), Context(branches, 0)),
          excuse, relevant);
    } else {
      JudgeOne(Failed(0, leaf), excuse, relevant);
      JudgeFailed(leaf, excuse, relevant);
      if valid != {} { var i :| i in valid; }
    }
  }

  lemma JudgeFailed(leaf: Leaf, excuse: Excuse, relevant: Relevance)
    ensures Judge(Failed(0, leaf), excuse, relevant).remaining == [] <==> excuse(leaf).Some?
  {
  }

  lemma ChoiceErrors(one: bool, branches: seq<Check>, nulls: set<nat>, leaf: Leaf)
    requires forall i: nat :: i < |branches| ==> (Errors(branches[i]) == [] <==> Strict(branches[i]))
    ensures var valid := StrictBranches(branches);
            Errors(Choice(one, branches, nulls, leaf)) ==
              if valid == {} then
                if branches == [] then [Failed(0, leaf)]
                else [Composite(0, leaf, one, NonNullBranch(one, branches, nulls, leaf.instance), Context(branches, 0))]
              else if !one || |valid| == 1 then []
              else [Failed(0, leaf)]
  {
    assert (set i: nat | i < |branches| && Errors(branches[i]) == []) == StrictBranches(branches);
    hide Strict;
  }

  // A choice none of whose branches holds is excused exactly as the relaxed schema says.
  lemma CompositeExact(one: bool, branches: seq<Check>, nulls: set<nat>, leaf: Leaf, excuse: Excuse,
                       relevant: Relevance)
    requires branches != [] && StrictBranches(branches) == {}
    requires forall i: nat :: i < |branches| ==>
               && Errors(branches[i]) != []
               && (JudgeAll(Errors(branches[i]), excuse, relevant).remaining == [] <==> Relaxed(branches[i], excuse))
    ensures var error := Composite(0, leaf, one, NonNullBranch(one, branches, nulls, leaf.instance),
        Context(branches, 0));
            Judge(error, excuse, relevant).remaining == [] <==> Relaxed(Choice(one, branches, nulls, leaf), excuse)
  {
    hide Errors, JudgeAll, JudgeBranch, Strict, Judge;
    var context := Context(branches, 0);
    ContextIndices(branches, 0);
    forall b: nat | b < |branches|
      ensures JudgeBranch(context, b, excuse, relevant).remaining == [] <==> Relaxed(branches[b], excuse)
    {
      JudgeInContext(branches, 0, b, excuse, relevant);
    }
    hide Context, Indices;
    JudgeComposite(leaf, one, NonNullBranch(one, branches, nulls, leaf.instance), context, excuse, relevant);
    var passing := Passing(context, excuse, relevant);
    forall b: nat ensures b in passing <==> b in RelaxedBranches(branches, excuse) {
    }
    assert passing == RelaxedBranches(branches, excuse);
    RelaxedComposite(one, branches, nulls, leaf, excuse);
  }

  lemma JudgeComposite(leaf: Leaf, one: bool, only: Option<nat>, context: seq<Err>, excuse: Excuse, relevant: Relevance)
    requires context != []
    ensures (Judge(Composite(0, leaf, one, only, context), excuse, relevant).remaining == [])
         == if only.Some? then JudgeBranch(context, only.value, excuse, relevant).remaining == []
            else Decided(one, Passing(context, excuse, relevant))
  {
    hide JudgeBranch;
    ClosestIsIndex(context, relevant);
    var closest := Closest(context, relevant);
    assert closest in Passing(context, excuse, relevant)
        <==> JudgeBranch(context, closest, excuse, relevant).remaining == [];
  }

  // Enough branches pass, and for `oneOf` not too many.
  predicate Decided(one: bool, passing: set<nat>) {
    passing != {} && (!one || |passing| == 1)
  }

  // What the relaxed schema asks of a choice none of whose branches holds.
  lemma RelaxedComposite(one: bool, branches: seq<Check>, nulls: set<nat>, leaf: Leaf, excuse: Excuse)
    requires branches != [] && StrictBranches(branches) == {}
    ensures var only := NonNullBranch(one, branches, nulls, leaf.instance);
            Relaxed(Choice(one, branches, nulls, leaf), excuse)
            == if only.Some? then Relaxed(branches[only.value], excuse) else Decided(one,
                RelaxedBranches(branches, excuse))
  {
    hide Strict;
    var passing := RelaxedBranches(branches, excuse);
    if i :| 0 <= i < |branches| && Relaxed(branches[i], excuse) { assert i in passing; }
    if passing != {} { var i :| i in passing; }
  }

  lemma ClosestIsIndex(context: seq<Err>, relevant: Relevance)
    requires context != []
    ensures Closest(context, relevant) in Indices(context)
  {
  }

  // ----- consequences

  /** A nullable reference, for a value that is not null, is judged exactly as its reference alone. */
  lemma NullableAsReference(branches: seq<Check>, nulls: set<nat>, leaf: Leaf, excuse: Excuse, relevant: Relevance)
    requires Genuine(Choice(false, branches, nulls, leaf))
    requires NonNullBranch(false, branches, nulls, leaf.instance).Some?
    ensures var ref := branches[NonNullBranch(false, branches, nulls, leaf.instance).value];
            var alone := JudgeAll(Errors(ref), excuse, relevant);
            var chosen := JudgeAll(Errors(Choice(false, branches, nulls, leaf)), excuse, relevant);
            && chosen.remaining == alone.remaining
            && (alone.remaining == [] ==> chosen.absorbed == alone.absorbed)
  {
    hide JudgeAll;
    var only := NonNullBranch(false, branches, nulls, leaf.instance);
    forall i: nat | i < |branches|
      ensures Errors(branches[i]) == [] <==> Strict(branches[i])
    {
      ErrorsExactly(branches[i]);
    }
    ChoiceErrors(false, branches, nulls, leaf);
    var valid := StrictBranches(branches);
    if valid == {} {
      hide Errors, Strict;
      JudgeOne(Composite(0, leaf, false, only, Context(branches, 0)), excuse, relevant);
      forall i: nat | i < |branches| ensures Errors(branches[i]) != [] { assert i !in valid; }
      ContextIndices(branches, 0);
      JudgeInContext(branches, 0, only.value, excuse, relevant);
    } else {
      hide Errors;
      var i :| i in valid;
      assert only.value in valid;
      JudgeOne(Failed(0, leaf), excuse, relevant);
    }
  }

  /** Nothing remains and nothing is absorbed exactly when the body is valid as it stands. */
  lemma AbsorbsNothingExactlyWhenValid(check: Check, excuse: Excuse, relevant: Relevance)
    ensures JudgeAll(Errors(check), excuse, relevant) == Verdict([], []) <==> Strict(check)
  {
    hide Judge;
    ErrorsExactly(check);
    if Errors(check) == [] {
      JudgeOne(Failed(0, Leaf("", "", Null)), excuse, relevant);
    } else {
      ErrorsLeaveATrace(check, excuse, relevant);
    }
  }

  lemma {:induction false} ErrorsLeaveATrace(check: Check, excuse: Excuse, relevant: Relevance)
    requires Errors(check) != []
    ensures JudgeAll(Errors(check), excuse, relevant) != Verdict([], [])
  {
    match check
    case Assertion(leaf, _) => JudgeOne(Failed(0, leaf), excuse, relevant);
    case Every(parts) => PartsLeaveATrace(parts, excuse, relevant);
    case Choice(one, branches, nulls, leaf) =>
      forall i: nat | i < |branches|
        ensures Errors(branches[i]) == [] <==> Strict(branches[i])
        ensures Errors(branches[i]) != [] ==> JudgeAll(Errors(branches[i]), excuse, relevant) != Verdict([], [])
      {
        ErrorsExactly(branches[i]);
        if Errors(branches[i]) != [] { ErrorsLeaveATrace(branches[i], excuse, relevant); }
      }
      ChoiceErrors(one, branches, nulls, leaf);
      JudgeOne(Failed(0, leaf), excuse, relevant);
      var valid := StrictBranches(branches);
      hide Strict, JudgeAll, Errors;
      if valid == {} && branches != [] {
        var only := NonNullBranch(one, branches, nulls, leaf.instance);
        forall i: nat | i < |branches| ensures Errors(branches[i]) != [] { assert i !in valid; }
        JudgeOne(Composite(0, leaf, one, only, Context(branches, 0)), excuse, relevant);
        CompositeLeavesATrace(one, branches, only, leaf, excuse, relevant);
      }
  }

  lemma {:induction false} PartsLeaveATrace(parts: seq<Check>, excuse: Excuse, relevant: Relevance)
    requires ErrorsOf(parts) != []
    ensures JudgeAll(ErrorsOf(parts), excuse, relevant) != Verdict([], [])
    decreases parts
  {
    hide Judge, JudgeAll;
    JudgeAllConcat(Errors(parts[0]), ErrorsOf(parts[1..]), excuse, relevant);
    if Errors(parts[0]) != [] { ErrorsLeaveATrace(parts[0], excuse, relevant); }
    if ErrorsOf(parts[1..]) != [] { PartsLeaveATrace(parts[1..], excuse, relevant); }
  }

  lemma CompositeLeavesATrace(one: bool, branches: seq<Check>, only: Option<nat>, leaf: Leaf, excuse: Excuse,
                              relevant: Relevance)
    requires branches != [] && (only.Some? ==> only.value < |branches|)
    requires forall i: nat :: i < |branches| ==>
               Errors(branches[i]) != [] && JudgeAll(Errors(branches[i]), excuse, relevant) != Verdict([], [])
    ensures Judge(Composite(0, leaf, one, only, Context(branches, 0)), excuse, relevant) != Verdict([], [])
  {
    hide Errors, JudgeAll, JudgeBranch;
    var context := Context(branches, 0);
    ContextIndices(branches, 0);
    forall b: nat | b < |branches| ensures JudgeBranch(context, b, excuse, relevant) != Verdict([], []) {
      JudgeInContext(branches, 0, b, excuse, relevant);
    }
    hide Context, Indices;
    var closest := Closest(context, relevant);
    ClosestIsIndex(context, relevant);
    assert closest in Passing(context, excuse, relevant)
        <==> JudgeBranch(context, closest, excuse, relevant).remaining == [];
  }

  // Every `oneOf` has a branch that holds as it stands, or no second branch; a choice that has one is not looked into.
  predicate Harmless(check: Check) {
    match check
    case Assertion(_, _) => true
    case Every(parts) => forall i :: 0 <= i < |parts| ==> Harmless(parts[i])
    case Choice(one, branches, _, _) =>
      || StrictBranches(branches) != {}
      || ((one ==> |branches| <= 1) && forall i :: 0 <= i < |branches| ==> Harmless(branches[i]))
  }

  // The second excuses whatever the first does.
  ghost predicate Extends(excuse: Excuse, more: Excuse) {
    forall leaf :: excuse(leaf).Some? ==> more(leaf).Some?
  }

  /** Then declaring more deviations never turns a pass into a failure. */
  lemma {:induction false} MoreDeviationsExcuseMore(check: Check, excuse: Excuse, more: Excuse)
    requires Genuine(check) && Harmless(check) && Extends(excuse, more) && Relaxed(check, excuse)
    ensures Relaxed(check, more)
  {
    match check
    case Assertion(_, _) =>
    case Every(parts) =>
      forall i | 0 <= i < |parts| ensures Relaxed(parts[i], more) { MoreDeviationsExcuseMore(parts[i], excuse, more); }
    case Choice(one, branches, nulls, leaf) =>
      hide Strict;
      var only := NonNullBranch(one, branches, nulls, leaf.instance);
      if StrictBranches(branches) != {} {
        HoldingRelaxed(check, excuse);
        HoldingRelaxed(check, more);
      } else if only.Some? {
        MoreDeviationsExcuseMore(branches[only.value], excuse, more);
      } else if branches != [] && !one {
        var i :| 0 <= i < |branches| && Relaxed(branches[i], excuse);
        MoreDeviationsExcuseMore(branches[i], excuse, more);
      } else if one && branches != [] {
        LoneBranch(branches, excuse);
        LoneBranch(branches, more);
        if Relaxed(branches[0], excuse) { MoreDeviationsExcuseMore(branches[0], excuse, more); }
      }
  }

  // What holds as it stands holds whatever is excused.
  lemma {:induction false} StrictIsRelaxed(check: Check, excuse: Excuse)
    requires Genuine(check) && Strict(check)
    ensures Relaxed(check, excuse)
  {
    match check
    case Assertion(_, _) =>
    case Every(parts) =>
      forall i | 0 <= i < |parts| ensures Relaxed(parts[i], excuse) { StrictIsRelaxed(parts[i], excuse); }
    case Choice(one, branches, nulls, leaf) =>
      var i :| i in StrictBranches(branches);
      StrictIsRelaxed(branches[i], excuse);
      OnlyHolds(one, branches, nulls, leaf);
  }

  // Of a nullable reference and a value that is not null, only the reference can hold.
  lemma OnlyHolds(one: bool, branches: seq<Check>, nulls: set<nat>, leaf: Leaf)
    requires Genuine(Choice(one, branches, nulls, leaf))
    ensures var only := NonNullBranch(one, branches, nulls, leaf.instance);
            only.Some? ==> forall i :: i in StrictBranches(branches) ==> i == only.value
  {
    hide Strict;
    var only := NonNullBranch(one, branches, nulls, leaf.instance);
    forall i | i in StrictBranches(branches) ensures only.Some? ==> i == only.value {
      assert only.Some? && i in nulls ==> leaf.instance == Null;
    }
  }

  // With such a branch, only a `oneOf` that has several asks the deviations anything.
  lemma HoldingRelaxed(check: Check, excuse: Excuse)
    requires check.Choice? && Genuine(check) && StrictBranches(check.branches) != {}
    ensures Relaxed(check, excuse)
       <==> !check.one || |StrictBranches(check.branches)| == 1 || excuse(check.leaf).Some?
  {
    hide Strict;
    var i :| i in StrictBranches(check.branches);
    StrictIn(check, i);
    StrictIsRelaxed(check.branches[i], excuse);
    OnlyHolds(check.one, check.branches, check.nulls, check.leaf);
  }

  lemma StrictIn(check: Check, i: nat)
    requires check.Choice? && i in StrictBranches(check.branches)
    ensures i < |check.branches| && Strict(check.branches[i])
  {
  }

  lemma LoneBranch(branches: seq<Check>, excuse: Excuse)
    requires |branches| == 1
    ensures |RelaxedBranches(branches, excuse)| == 1 <==> Relaxed(branches[0], excuse)
  {
    assert RelaxedBranches(branches, excuse) == if Relaxed(branches[0], excuse) then {0} else {};
  }

  const EVERYTHING: Excuse := (leaf: Leaf) => Some("everything")

  // With everything excused, such a check passes.
  lemma {:induction false} EverythingPasses(check: Check)
    requires Genuine(check) && Harmless(check)
    ensures Relaxed(check, EVERYTHING)
  {
    match check
    case Assertion(_, _) =>
    case Every(parts) =>
      forall i | 0 <= i < |parts| ensures Relaxed(parts[i], EVERYTHING) { EverythingPasses(parts[i]); }
    case Choice(one, branches, nulls, leaf) =>
      hide Strict;
      assert EVERYTHING(leaf).Some?;
      if StrictBranches(branches) != {} {
        HoldingRelaxed(check, EVERYTHING);
      } else {
        forall i | 0 <= i < |branches| ensures Relaxed(branches[i], EVERYTHING) { EverythingPasses(branches[i]); }
        if |branches| == 1 { LoneBranch(branches, EVERYTHING); }
        if branches != [] { assert Relaxed(branches[0], EVERYTHING); }
      }
  }

  /**
   A `oneOf` over such branches is monotone exactly when it has a branch that holds as it stands, no second branch, or
   no set of deviations that makes it pass; otherwise every pass is lost again once enough is excused.
   */
  lemma OneOfMonotoneExactlyWhen(branches: seq<Check>, nulls: set<nat>, leaf: Leaf)
    requires Genuine(Choice(true, branches, nulls, leaf))
    requires forall i :: 0 <= i < |branches| ==> Harmless(branches[i])
    ensures var check := Choice(true, branches, nulls, leaf);
            (forall excuse, more :: Extends(excuse, more) && Relaxed(check, excuse) ==> Relaxed(check, more))
            <==> StrictBranches(branches) != {} || |branches| <= 1 || forall excuse :: !Relaxed(check, excuse)
  {
    var check := Choice(true, branches, nulls, leaf);
    if StrictBranches(branches) != {} || |branches| <= 1 {
      assert Harmless(check);
      hide Harmless, Genuine, Relaxed;
      forall excuse, more | Extends(excuse, more) && Relaxed(check, excuse) ensures Relaxed(check, more) {
        MoreDeviationsExcuseMore(check, excuse, more);
      }
    } else if excuse: Excuse :| Relaxed(check, excuse) {
      EveryPassIsLost(branches, nulls, leaf);
      assert Extends(excuse, EVERYTHING);
    }
  }

  lemma EveryPassIsLost(branches: seq<Check>, nulls: set<nat>, leaf: Leaf)
    requires StrictBranches(branches) == {} && |branches| >= 2 && Genuine(Choice(true, branches, nulls, leaf))
    requires forall i :: 0 <= i < |branches| ==> Harmless(branches[i])
    ensures !Relaxed(Choice(true, branches, nulls, leaf), EVERYTHING)
  {
    var passing := RelaxedBranches(branches, EVERYTHING);
    EverythingPasses(branches[0]);
    EverythingPasses(branches[1]);
    hide Strict, Harmless;
    assert 0 in passing && 1 in passing;
    if |passing| == 1 { TwoInOne(passing, 0, 1); assert false; }
  }

  lemma TwoInOne(s: set<nat>, a: nat, b: nat)
    requires a in s && b in s && a != b
    ensures |s| != 1
  {
    assert |s - {a}| == |s| - 1 && b in s - {a};
  }

  // The least of them: excusing a second branch into passing makes the choice ambiguous.
  lemma MoreDeviationsCanFail(a: Leaf, b: Leaf, leaf: Leaf)
    requires a != b
    ensures var check := Choice(true, [Assertion(a, false), Assertion(b, false)], {}, leaf);
            var excuse := (l: Leaf) => if l == a then Some("a") else None;
            var more := (l: Leaf) => if l == a || l == b then Some("a or b") else None;
            Relaxed(check, excuse) && !Relaxed(check, more)
  {
    var branches := [Assertion(a, false), Assertion(b, false)];
    var excuse := (l: Leaf) => if l == a then Some("a") else None;
    var more := (l: Leaf) => if l == a || l == b then Some("a or b") else None;
    assert StrictBranches(branches) == {};
    assert RelaxedBranches(branches, excuse) == {0};
    assert RelaxedBranches(branches, more) == {0, 1};
  }

  // ----- the loops

  // One branch's errors, in the order they stand.
  function OfBranch(context: seq<Err>, b: nat): seq<Err> {
    if context == [] then []
    else
      var front, last := context[..|context| - 1], context[|context| - 1];
      if last.branch == b then OfBranch(front, b) + [last] else OfBranch(front, b)
  }

  lemma {:induction false} OfBranchFrom(context: seq<Err>, b: nat, i: nat) returns (j: nat)
    requires i < |OfBranch(context, b)|
    ensures j < |context| && context[j] == OfBranch(context, b)[i]
  {
    var front := context[..|context| - 1];
    if i < |OfBranch(front, b)| { j := OfBranchFrom(front, b, i); } else { j := |context| - 1; }
  }

  lemma {:induction false} JudgeOfBranch(context: seq<Err>, b: nat, excuse: Excuse, relevant: Relevance)
    ensures JudgeAll(OfBranch(context, b), excuse, relevant) == JudgeBranch(context, b, excuse, relevant)
  {
    hide Judge;
    if context != [] {
      var front, last := context[..|context| - 1], context[|context| - 1];
      assert context == front + [last];
      JudgeOfBranch(front, b, excuse, relevant);
      JudgeBranchConcat(front, [last], b, excuse, relevant);
      JudgeAllConcat(OfBranch(front, b), [last], excuse, relevant);
      JudgeOne(last, excuse, relevant);
      BranchOfOne(last, b, excuse, relevant);
    }
  }

  lemma BranchOfOne(error: Err, b: nat, excuse: Excuse, relevant: Relevance)
    ensures JudgeBranch([error], b, excuse, relevant)
         == if error.branch == b then Judge(error, excuse, relevant) else Verdict([], [])
  {
    hide Judge;
    assert [error][1..] == [];
  }

  ghost predicate Grouped(branches: map<nat, seq<Err>>, context: seq<Err>) {
    branches.Keys == Indices(context) && forall b :: b in branches ==> branches[b] == OfBranch(context, b)
  }

  lemma GroupedMore(branches: map<nat, seq<Err>>, front: seq<Err>, child: Err)
    requires Grouped(branches, front)
    ensures var had := if child.branch in branches then branches[child.branch] else [];
            Grouped(branches[child.branch := had + [child]], front + [child])
  {
    IndicesConcat(front, [child]);
    assert Indices([child]) == {child.branch} by { assert [child][0].branch in Indices([child]); }
    var context := front + [child];
    assert context[..|context| - 1] == front;
    if child.branch !in branches { NoneOfBranch(front, child.branch); }
  }

  lemma {:induction false} NoneOfBranch(context: seq<Err>, b: nat)
    requires b !in Indices(context)
    ensures OfBranch(context, b) == []
  {
    if context != [] {
      var front, last := context[..|context| - 1], context[|context| - 1];
      assert context[|context| - 1].branch in Indices(context);
      forall n | n in Indices(front) ensures n in Indices(context) {
        var i :| 0 <= i < |front| && front[i].branch == n;
        assert context[i].branch in Indices(context);
      }
      NoneOfBranch(front, b);
    }
  }

  /** `_judge`: group the children by branch, judge each group, and decide. */
  method JudgeError(error: Err, excuse: Excuse, relevant: Relevance) returns (verdict: Verdict)
    ensures verdict == Judge(error, excuse, relevant)
    decreases error
  {
    if error.Failed? || error.context == [] { return JudgeLeaf(error.leaf, excuse); }
    var context := error.context;
    hide JudgeAll, Judge, JudgeBranch, Indices, OfBranch;
    var branches: map<nat, seq<Err>> := map[];
    NothingGrouped();
    for i := 0 to |context|
      invariant Grouped(branches, context[..i])
    {
      var child := context[i];
      GroupedMore(branches, context[..i], child);
      assert context[..i + 1] == context[..i] + [child];
      branches := branches[child.branch := (if child.branch in branches then branches[child.branch] else []) + [child]];
    }
    assert context[..|context|] == context;
    var judged: map<nat, Verdict> := map[];
    var left := branches.Keys;
    while left != {}
      invariant left <= branches.Keys && judged.Keys == branches.Keys - left
      invariant forall b :: b in judged ==> judged[b] == JudgeBranch(context, b, excuse, relevant)
    {
      var b :| b in left;
      left := left - {b};
      var children := branches[b];
      var all := Verdict([], []);
      JudgedNone(excuse, relevant);
      for i := 0 to |children|
        invariant all == JudgeAll(children[..i], excuse, relevant)
      {
        ghost var j := OfBranchFrom(context, b, i);
        assert error.context[j] == children[i];
        var v := JudgeError(children[i], excuse, relevant);
        JudgedMore(children, i, excuse, relevant);
        all := Join(all, v);
      }
      assert children[..|children|] == children;
      JudgeOfBranch(context, b, excuse, relevant);
      judged := judged[b := all];
    }
    verdict := Decide(error, judged, excuse, relevant);
  }

  lemma NothingGrouped()
    ensures Grouped(map[], [])
  {
  }

  lemma JudgedNone(excuse: Excuse, relevant: Relevance)
    ensures JudgeAll([], excuse, relevant) == Verdict([], [])
  {
  }

  lemma JudgedMore(children: seq<Err>, i: nat, excuse: Excuse, relevant: Relevance)
    requires i < |children|
    ensures JudgeAll(children[..i + 1], excuse, relevant)
         == Join(JudgeAll(children[..i], excuse, relevant), Judge(children[i], excuse, relevant))
  {
    hide Judge;
    assert children[..i + 1] == children[..i] + [children[i]];
    JudgeAllConcat(children[..i], [children[i]], excuse, relevant);
    JudgeOne(children[i], excuse, relevant);
  }

  function AllExcused(judged: map<nat, Verdict>): set<nat> {
    set b | b in judged.Keys && judged[b].remaining == []
  }

  // The second half of `_judge`: the decision, from each branch's verdict.
  function Decide(error: Err, judged: map<nat, Verdict>, excuse: Excuse, relevant: Relevance): (verdict: Verdict)
    requires error.Composite? && error.context != [] && judged.Keys == Indices(error.context)
    requires forall b :: b in judged ==> judged[b] == JudgeBranch(error.context, b, excuse, relevant)
    ensures verdict == Judge(error, excuse, relevant)
  {
    DecideAgrees(error, judged, excuse, relevant);
    if error.only.Some? then
      var v := if error.only.value in judged then judged[error.only.value] else Verdict([], []);
      if v.remaining != [] then Verdict(v.remaining, []) else v
    else
      var passing := AllExcused(judged);
      if passing == {} then
        ClosestIsIndex(error.context, relevant);
        Verdict(judged[Closest(error.context, relevant)].remaining, [])
      else if !error.one || |passing| == 1 then Verdict([], judged[Least(passing)].absorbed)
      else Verdict([Ambiguous(error.leaf, |passing|)], [])
  }

  lemma DecideAgrees(error: Err, judged: map<nat, Verdict>, excuse: Excuse, relevant: Relevance)
    requires error.Composite? && error.context != [] && judged.Keys == Indices(error.context)
    requires forall b :: b in judged ==> judged[b] == JudgeBranch(error.context, b, excuse, relevant)
    ensures AllExcused(judged) == Passing(error.context, excuse, relevant)
    ensures forall b :: b !in judged ==> JudgeBranch(error.context, b, excuse, relevant) == Verdict([], [])
  {
    hide Judge, JudgeAll, JudgeBranch;
    forall b | b !in judged ensures JudgeBranch(error.context, b, excuse, relevant) == Verdict([], []) {
      NoneOfBranch(error.context, b);
      JudgeOfBranch(error.context, b, excuse, relevant);
      JudgedNone(excuse, relevant);
    }
  }
}
