/** Type errors of a mutated file beyond those the unmodified file already has. */
module TypeErrors {
  import opened Wrappers
  import opened Text

  /** An error without its position. */
  function TypeErrorMessage(s: string): string {
    match IndexColonSpace(s)
    case None => s
    case Some(i) => s[i + 2..]
  }

  /** The same message at two positions compares equal. */
  lemma MessageWithoutPosition(position: string, message: string)
    requires !HasColonSpace(position)
    ensures TypeErrorMessage(position + COLON_SPACE + message) == message
  {
    IndexColonSpaceSplit(position, message);
    assert (position + COLON_SPACE + message)[|position| + 2..] == message;
  }

  function Messages(errors: seq<string>): (r: seq<string>)
    ensures |r| == |errors|
  {
    if errors == [] then [] else Messages(errors[..|errors| - 1]) + [TypeErrorMessage(errors[|errors| - 1])]
  }

  /** How often each message may occur: the source's map from message to count. */
  type Budget = multiset<string>

  lemma MessagesSnoc(errors: seq<string>, e: string)
    ensures Messages(errors + [e]) == Messages(errors) + [TypeErrorMessage(e)]
  {
    assert (errors + [e])[..|errors|] == errors;
  }

  /** The messages of the unmodified file, counted. */
  method ComputeBaselineErrors(errors: seq<string>) returns (counts: Budget)
    ensures counts == multiset(Messages(errors))
  {
    counts := multiset{};
    for i := 0 to |errors|
      invariant counts == multiset(Messages(errors[..i]))
    {
      assert errors[..i + 1][..i] == errors[..i];
      counts := counts + multiset{TypeErrorMessage(errors[i])};
    }
    assert errors[..|errors|] == errors;
  }

  datatype Checked = Checked(budget: Budget, newErrors: seq<string>)

  /** An error whose message has budget left uses it up; any other error is new. */
  function Step(c: Checked, e: string): Checked {
    var msg := TypeErrorMessage(e);
    if c.budget[msg] > 0 then Checked(c.budget - multiset{msg}, c.newErrors) else Checked(c.budget, c.newErrors + [e])
  }

  function Check(errors: seq<string>, baseline: Budget): Checked {
    if errors == [] then Checked(baseline, []) else Step(Check(errors[..|errors| - 1], baseline), errors[|errors| - 1])
  }

  method NewErrors(errors: seq<string>, baseline: Budget) returns (newErrors: seq<string>)
    ensures newErrors == Check(errors, baseline).newErrors
  {
    newErrors := [];
    var budget := baseline;
    for i := 0 to |errors|
      invariant Check(errors[..i], baseline) == Checked(budget, newErrors)
    {
      assert errors[..i + 1][..i] == errors[..i];
      var msg := TypeErrorMessage(errors[i]);
      if budget[msg] > 0 {
        budget := budget - multiset{msg};
      } else {
        newErrors := newErrors + [errors[i]];
      }
    }
    assert errors[..|errors|] == errors;
  }

  lemma SurplusStep<T>(all: seq<T>, left: seq<T>, x: T, baseline: multiset<T>)
    requires multiset(left) == multiset(all) - baseline
    ensures x in baseline - multiset(all) ==>
              multiset(left) == multiset(all + [x]) - baseline
              && baseline - multiset(all) - multiset{x} == baseline - multiset(all + [x])
    ensures x !in baseline - multiset(all) ==>
              multiset(left + [x]) == multiset(all + [x]) - baseline
              && baseline - multiset(all) == baseline - multiset(all + [x])
  {
  }

  /** Of each message exactly the surplus over the baseline is left, and the budget keeps what was not used. */
  lemma {:induction false} NewErrorsAreTheSurplus(errors: seq<string>, baseline: Budget)
    ensures multiset(Messages(Check(errors, baseline).newErrors)) == multiset(Messages(errors)) - baseline
    ensures Check(errors, baseline).budget == baseline - multiset(Messages(errors))
    decreases |errors|
  {
    hide TypeErrorMessage;
    if errors != [] {
      var init, e := errors[..|errors| - 1], errors[|errors| - 1];
      NewErrorsAreTheSurplus(init, baseline);
      MessagesSnoc(Check(init, baseline).newErrors, e);
      SurplusStep(Messages(init), Messages(Check(init, baseline).newErrors), TypeErrorMessage(e), baseline);
      assert Check(errors, baseline) == Step(Check(init, baseline), e);
      assert Messages(errors) == Messages(init) + [TypeErrorMessage(e)];
      hide Check, Messages;
    }
  }

  /** A group passes exactly when no message occurs more often than in the unmodified file. */
  lemma PassesWithinBaseline(errors: seq<string>, baseline: Budget)
    ensures Check(errors, baseline).newErrors == [] <==> multiset(Messages(errors)) <= baseline
  {
    NewErrorsAreTheSurplus(errors, baseline);
    var left := Check(errors, baseline).newErrors;
    assert left != [] ==> Messages(left)[|left| - 1] in multiset(Messages(left));
    assert multiset(Messages(errors)) <= baseline <==> multiset(Messages(errors)) - baseline == multiset{};
  }
}
