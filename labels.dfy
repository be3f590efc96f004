/** The label rule table of `check_for_label`: an ordered list of rules, each a
    comparison of a window's annotated fraction with a threshold; the first
    rule that holds names the window's label. */
module Labels {
  import opened Wrappers
  import opened Raster

  /** The comparison operators a rule may use (`==`, `>=`, `>`, `<=`, `<`). */
  datatype Op = Eq | Ge | Gt | Le | Lt

  /** One entry of `label_dict`: its name, its `type`, its `threshold` and its
      `annotated` flag (whether the label stands for an annotated class). */
  datatype Rule = Rule(name: string, op: Op, threshold: real, annotated: bool)

  /** A successful lookup: the winning rule and the window's fraction. */
  datatype Match = Match(rule: Rule, fraction: real)

  /** Whether rule `r` accepts the fraction `f`. */
  predicate Holds(r: Rule, f: real)
  {
    match r.op
    case Eq => r.threshold == f
    case Ge => f >= r.threshold
    case Gt => f > r.threshold
    case Le => f <= r.threshold
    case Lt => f < r.threshold
  }

  /** The first rule, in declared order, that accepts `f`, or `None` (the
      source's `(None, None)`) when no rule does. */
  function FirstMatch(rules: seq<Rule>, f: real): (m: Option<Match>)
    ensures m.None? <==> forall i :: 0 <= i < |rules| ==> !Holds(rules[i], f)
    ensures m.Some? ==> m.value.fraction == f && Holds(m.value.rule, f)
    ensures m.Some? ==> exists i :: 0 <= i < |rules| && rules[i] == m.value.rule
                                    && forall j :: 0 <= j < i ==> !Holds(rules[j], f)
  {
    if rules == [] then None
    else if Holds(rules[0], f) then Some(Match(rules[0], f))
    else
      var m := FirstMatch(rules[1..], f);
      assert m.Some? ==> exists i :: 1 <= i < |rules| && rules[i] == m.value.rule
                                     && forall j :: 0 <= j < i ==> !Holds(rules[j], f) by {
        if m.Some? {
          var i :| 0 <= i < |rules[1..]| && rules[1..][i] == m.value.rule
                   && forall j :: 0 <= j < i ==> !Holds(rules[1..][j], f);
          assert forall j :: 0 <= j < i + 1 ==> !Holds(rules[j], f) by {
            forall j | 0 <= j < i + 1 ensures !Holds(rules[j], f) {
              if j > 0 { assert rules[j] == rules[1..][j - 1]; }
            }
          }
        }
      }
      assert m.None? ==> forall i :: 0 <= i < |rules| ==> !Holds(rules[i], f) by {
        if m.None? {
          forall i | 0 <= i < |rules| ensures !Holds(rules[i], f) {
            if i > 0 { assert rules[i] == rules[1..][i - 1]; }
          }
        }
      }
      m
  }

  /** `check_for_label`: the non-zero fraction of the window, then the first
      rule accepting it. The fraction reported with a match lies in [0, 1]. */
  function CheckForLabel(rules: seq<Rule>, window: Grid, h: nat, w: nat): (m: Option<Match>)
    requires IsGrid(window, h, w) && h > 0 && w > 0
    ensures m.Some? ==> 0.0 <= m.value.fraction <= 1.0
    ensures m.Some? ==> m.value.fraction == Fraction(window, h, w)
  {
    FirstMatch(rules, Fraction(window, h, w))
  }

  /** A rule list whose first match is the rule at index `i`. */
  ghost predicate WinsAt(rules: seq<Rule>, f: real, i: nat)
  {
    i < |rules| && Holds(rules[i], f) && forall j :: 0 <= j < i ==> !Holds(rules[j], f)
  }

  /** The first match is determined by its index: `FirstMatch` picks the rule
      at index `i` exactly when that rule holds and none before it does. */
  lemma {:induction false} FirstMatchIsWinner(rules: seq<Rule>, f: real, i: nat)
    requires WinsAt(rules, f, i)
    ensures FirstMatch(rules, f) == Some(Match(rules[i], f))
  {
    if i > 0 {
      assert !Holds(rules[0], f);
      assert WinsAt(rules[1..], f, i - 1) by {
        forall j | 0 <= j < i - 1 ensures !Holds(rules[1..][j], f) {
          assert rules[1..][j] == rules[j + 1];
        }
      }
      FirstMatchIsWinner(rules[1..], f, i - 1);
    }
  }

  /** An empty window (fraction 0) never matches a `>` rule whose threshold is
      not negative; so if every annotated class is such a rule, an empty window
      can only receive a label that is not an annotated class. */
  lemma EmptyWindowNotAnnotated(rules: seq<Rule>, window: Grid, h: nat, w: nat)
    requires IsGrid(window, h, w) && h > 0 && w > 0
    requires AllZero(window, h, w)
    requires forall k :: 0 <= k < |rules| && rules[k].annotated ==>
               rules[k].op == Gt && rules[k].threshold >= 0.0
    ensures CheckForLabel(rules, window, h, w).Some? ==>
              !CheckForLabel(rules, window, h, w).value.rule.annotated
  {
    var m := CheckForLabel(rules, window, h, w);
    if m.Some? {
      var i :| 0 <= i < |rules| && rules[i] == m.value.rule;
      FractionZero(window, h, w);
    }
  }

  /** What the source raises on a `<=` rule (see `CheckForLabelAsWritten`). */
  datatype LabelError = FloatNotSubscriptable

  /** `check_for_label` as written: the `<=` branch reads the threshold as
      `label_percentage[label]["threshold"]`, subscripting the float fraction,
      so reaching a `<=` rule raises instead of comparing. */
  function CheckForLabelAsWritten(rules: seq<Rule>, f: real): (r: Result<Option<Match>, LabelError>)
  {
    if rules == [] then Success(None)
    else if rules[0].op == Le then Failure(FloatNotSubscriptable)
    else if Holds(rules[0], f) then Success(Some(Match(rules[0], f)))
    else CheckForLabelAsWritten(rules[1..], f)
  }

  /** The code as written fails exactly when the scan reaches a `<=` rule, that
      is when some `<=` rule comes before every rule that holds. */
  lemma {:induction false} AsWrittenFailsIff(rules: seq<Rule>, f: real)
    ensures CheckForLabelAsWritten(rules, f).Failure? <==>
              exists i :: 0 <= i < |rules| && rules[i].op == Le
                          && forall j :: 0 <= j < i ==> !Holds(rules[j], f)
  {
    if rules != [] && rules[0].op != Le && !Holds(rules[0], f) {
      AsWrittenFailsIff(rules[1..], f);
      if CheckForLabelAsWritten(rules, f).Failure? {
        var i :| 0 <= i < |rules[1..]| && rules[1..][i].op == Le
                 && forall j :: 0 <= j < i ==> !Holds(rules[1..][j], f);
        assert rules[i + 1].op == Le;
        forall j | 0 <= j < i + 1 ensures !Holds(rules[j], f) {
          if j > 0 { assert rules[j] == rules[1..][j - 1]; }
        }
      }
      if exists i :: 0 <= i < |rules| && rules[i].op == Le
                     && forall j :: 0 <= j < i ==> !Holds(rules[j], f) {
        var i :| 0 <= i < |rules| && rules[i].op == Le
                 && forall j :: 0 <= j < i ==> !Holds(rules[j], f);
        assert i > 0;
        assert rules[1..][i - 1].op == Le;
        forall j | 0 <= j < i - 1 ensures !Holds(rules[1..][j], f) {
          assert rules[1..][j] == rules[j + 1];
        }
      }
    }
  }

  /** Without `<=` rules the code as written and the corrected lookup agree. */
  lemma {:induction false} AsWrittenAgreesWithoutLe(rules: seq<Rule>, f: real)
    requires forall i :: 0 <= i < |rules| ==> rules[i].op != Le
    ensures CheckForLabelAsWritten(rules, f) == Success(FirstMatch(rules, f))
  {
    if rules != [] && !Holds(rules[0], f) {
      AsWrittenAgreesWithoutLe(rules[1..], f);
    }
  }

  /** A single `<= 0.5` rule and an empty window: the corrected lookup labels
      the window, the code as written raises. */
  lemma LeRuleRaises()
    ensures CheckForLabelAsWritten([Rule("stroma", Le, 0.5, false)], 0.0).Failure?
    ensures FirstMatch([Rule("stroma", Le, 0.5, false)], 0.0)
         == Some(Match(Rule("stroma", Le, 0.5, false), 0.0))
  {
  }
}
