/**
 * The order search shared by `imports_model`, `harvest_model` and
 * `yield_model` in functions/arima_models.py: nine ARIMA(p, d, q) fits with
 * p and q in 0..2, keeping a candidate only when it improves both AIC and
 * BIC on the best so far. Fitting itself is an oracle.
 */
module ArimaSelection {
  import opened Wrappers

  datatype Order = Order(p: nat, d: nat, q: nat)

  /** One forecast step: the predicted mean and the confidence band around it. */
  datatype Step = Step(mean: real, lower: real, upper: real)

  /**
   * What `ARIMA(data, order).fit()` gives: an exception, or a result with
   * its information criteria and the `get_forecast` steps it would produce.
   */
  datatype FitOutcome = FitFailed | Fitted(aic: real, bic: real, steps: seq<Step>)

  datatype Attempt = Attempt(order: Order, outcome: FitOutcome)

  /** `best_order`, `best_aic`, `best_bic` and `best_model` once one is set. */
  datatype Choice = Choice(order: Order, aic: real, bic: real, steps: seq<Step>)

  /** The orders visited by `for p in range(3): for q in range(3)`, in visiting order. */
  function Candidates(d: nat): seq<Order> {
    [Order(0, d, 0), Order(0, d, 1), Order(0, d, 2),
     Order(1, d, 0), Order(1, d, 1), Order(1, d, 2),
     Order(2, d, 0), Order(2, d, 1), Order(2, d, 2)]
  }

  /** The grid is all nine (p, q) pairs below 3, each once, p outer and q inner. */
  lemma CandidatesSpec(d: nat)
    ensures |Candidates(d)| == 9
    ensures forall i :: 0 <= i < 9 ==> Candidates(d)[i] == Order(i / 3, d, i % 3)
    ensures forall o: Order :: o in Candidates(d) <==> o.d == d && o.p < 3 && o.q < 3
    ensures forall i, j :: 0 <= i < j < 9 ==> Candidates(d)[i] != Candidates(d)[j]
  {
    var c := Candidates(d);
    forall o: Order | o.d == d && o.p < 3 && o.q < 3 ensures o in c {
      assert c[3 * o.p + o.q] == o;
    }
  }

  lemma CandidateAt(d: nat, p: nat, q: nat)
    requires p < 3 && q < 3
    ensures Candidates(d)[3 * p + q] == Order(p, d, q)
  {
  }

  /** The fits the loop performs, in order. */
  function Attempts<S>(fit: (S, Order) -> FitOutcome, data: S, d: nat): (r: seq<Attempt>)
    ensures |r| == 9
  {
    seq(9, i requires 0 <= i < 9 => Attempt(Candidates(d)[i], fit(data, Candidates(d)[i])))
  }

  function ChoiceOf(a: Attempt): Choice
    requires a.outcome.Fitted?
  {
    Choice(a.order, a.outcome.aic, a.outcome.bic, a.outcome.steps)
  }

  /** `model_fit.aic < best_aic and model_fit.bic < best_bic`. */
  predicate Dominates(r: FitOutcome, c: Choice) {
    r.Fitted? && r.aic < c.aic && r.bic < c.bic
  }

  /**
   * One pass of the loop body. With no best yet both criteria are compared
   * against +inf, so any successful fit is taken; a failed fit is skipped by
   * the `except: continue`.
   */
  function Improve(best: Option<Choice>, a: Attempt): Option<Choice> {
    if a.outcome.Fitted? && (best.None? || Dominates(a.outcome, best.value)) then Some(ChoiceOf(a)) else best
  }

  /** The best after visiting `attempts` in order, starting from none. */
  function Select(attempts: seq<Attempt>): Option<Choice>
    decreases |attempts|
  {
    if attempts == [] then None
    else Improve(Select(attempts[..|attempts| - 1]), attempts[|attempts| - 1])
  }

  lemma SelectSnoc(attempts: seq<Attempt>, a: Attempt)
    ensures Select(attempts + [a]) == Improve(Select(attempts), a)
  {
    assert (attempts + [a])[..|attempts|] == attempts;
  }

  lemma SelectPrefix(attempts: seq<Attempt>, n: nat)
    requires n < |attempts|
    ensures Select(attempts[..n + 1]) == Improve(Select(attempts[..n]), attempts[n])
  {
    assert attempts[..n + 1] == attempts[..n] + [attempts[n]];
    SelectSnoc(attempts[..n], attempts[n]);
  }

  /** Nothing is selected exactly when every fit failed. */
  lemma {:induction false} SelectNoneIffAllFailed(attempts: seq<Attempt>)
    ensures Select(attempts).None? <==> forall i :: 0 <= i < |attempts| ==> attempts[i].outcome.FitFailed?
    decreases |attempts|
  {
    if attempts != [] {
      var init := attempts[..|attempts| - 1];
      SelectNoneIffAllFailed(init);
      assert forall i :: 0 <= i < |init| ==> init[i] == attempts[i];
    }
  }

  /** The selected model is one of the successful fits, with its own criteria. */
  lemma {:induction false} SelectIsAFit(attempts: seq<Attempt>)
    requires Select(attempts).Some?
    ensures exists k :: 0 <= k < |attempts| && attempts[k].outcome.Fitted? && Select(attempts) == Some(ChoiceOf(attempts[k]))
    decreases |attempts|
  {
    var n := |attempts|;
    var init := attempts[..n - 1];
    if Select(attempts) == Select(init) {
      SelectIsAFit(init);
      var k :| 0 <= k < |init| && init[k].outcome.Fitted? && Select(init) == Some(ChoiceOf(init[k]));
      assert attempts[k] == init[k];
    } else {
      assert Select(attempts) == Some(ChoiceOf(attempts[n - 1]));
    }
  }

  /**
   * No successful fit, earlier or later, beats the selected one on both
   * criteria: each replacement is strictly better on both, so a fit that
   * beat the final choice would have beaten the best of its own time too.
   */
  lemma {:induction false} SelectNotDominated(attempts: seq<Attempt>)
    ensures forall j :: 0 <= j < |attempts| && attempts[j].outcome.Fitted? ==>
      Select(attempts).Some? && !Dominates(attempts[j].outcome, Select(attempts).value)
    decreases |attempts|
  {
    if attempts != [] {
      var n := |attempts|;
      var init := attempts[..n - 1];
      assert forall i :: 0 <= i < |init| ==> init[i] == attempts[i];
      SelectNotDominated(init);
      SelectNoneIffAllFailed(init);
    }
  }

  /** The first successful fit is always taken. */
  lemma FirstFitIsTaken(attempts: seq<Attempt>, k: nat)
    requires k < |attempts| && attempts[k].outcome.Fitted?
    requires forall j :: 0 <= j < k ==> attempts[j].outcome.FitFailed?
    ensures Select(attempts[..k + 1]) == Some(ChoiceOf(attempts[k]))
  {
    var pre := attempts[..k + 1];
    assert pre[..k] == attempts[..k];
    SelectNoneIffAllFailed(attempts[..k]);
  }

  /**
   * One more candidate: a failed fit is skipped; with no best yet a
   * successful fit is taken; otherwise it replaces the best exactly when it
   * is strictly lower on both criteria, so on a tie the earlier one stays.
   */
  lemma SelectStep(attempts: seq<Attempt>, a: Attempt)
    ensures a.outcome.FitFailed? ==> Select(attempts + [a]) == Select(attempts)
    ensures Select(attempts).None? && a.outcome.Fitted? ==> Select(attempts + [a]) == Some(ChoiceOf(a))
    ensures Select(attempts).Some? && Dominates(a.outcome, Select(attempts).value) ==>
      Select(attempts + [a]) == Some(ChoiceOf(a))
    ensures Select(attempts).Some? && !Dominates(a.outcome, Select(attempts).value) ==>
      Select(attempts + [a]) == Select(attempts)
  {
    SelectSnoc(attempts, a);
  }

  /**
   * The result depends on the visiting order: improvement on both criteria
   * is not a total order, so of two incomparable fits the first one seen wins.
   */
  lemma SelectionDependsOnOrder()
    ensures var a := Attempt(Order(0, 0, 0), Fitted(10.0, 20.0, []));
            var b := Attempt(Order(0, 0, 1), Fitted(20.0, 10.0, []));
            Select([a, b]) == Some(ChoiceOf(a)) && Select([b, a]) == Some(ChoiceOf(b))
  {
    var a := Attempt(Order(0, 0, 0), Fitted(10.0, 20.0, []));
    var b := Attempt(Order(0, 0, 1), Fitted(20.0, 10.0, []));
    SelectSnoc([], a);
    SelectSnoc([], b);
    SelectSnoc([a], b);
    SelectSnoc([b], a);
    assert [] + [a] == [a] && [a] + [b] == [a, b];
    assert [] + [b] == [b] && [b] + [a] == [b, a];
  }

  /**
   * The nested `for p`/`for q` loop with its `try`/`except: continue`:
   * the model it keeps is the fold of the nine attempts.
   */
  method GridSearch<S>(fit: (S, Order) -> FitOutcome, data: S, d: nat) returns (best: Option<Choice>)
    ensures best == Select(Attempts(fit, data, d))
  {
    ghost var attempts := Attempts(fit, data, d);
    best := None;
    for p := 0 to 3
      invariant best == Select(attempts[..3 * p])
    {
      for q := 0 to 3
        invariant best == Select(attempts[..3 * p + q])
      {
        var order := Order(p, d, q);
        CandidateAt(d, p, q);
        assert attempts[3 * p + q] == Attempt(order, fit(data, order));
        var outcome := fit(data, order);
        if outcome.Fitted? && (best.None? || (outcome.aic < best.value.aic && outcome.bic < best.value.bic)) {
          best := Some(Choice(order, outcome.aic, outcome.bic, outcome.steps));
        }
        SelectPrefix(attempts, 3 * p + q);
      }
    }
    assert attempts[..9] == attempts;
  }
}
