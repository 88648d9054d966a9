/**
  The pure meaning of the validator's per-field and per-form decisions: which
  message a field's rules report, how an error display changes, and which data
  a successful submit hands over.
 */
module FieldRules {
  import opened Wrappers
  import opened Checks

  /** The rules the caller supplies: field name to the ordered rules of that field. */
  type RuleMap = map<string, seq<Rule>>

  /** What an error display shows: its text and whether its hidden class is set. */
  datatype DisplayState = DisplayState(text: string, hidden: bool)

  /** A bound input as the validator sees it; `D` identifies error displays. */
  datatype Field<D> = Field(name: string, value: string, display: Option<D>)

  /** The message of the last rule in `rules` that `value` does not match, if any. */
  function LastFailure(rules: seq<Rule>, value: string): Option<string>
  {
    if rules == [] then None
    else if !Matches(rules[|rules| - 1].exp, value) then Some(rules[|rules| - 1].err)
    else LastFailure(rules[..|rules| - 1], value)
  }

  /** No message is reported exactly when every rule matches. */
  lemma {:induction false} NoFailureIffAllMatch(rules: seq<Rule>, value: string)
    ensures LastFailure(rules, value) == None <==> forall i :: 0 <= i < |rules| ==> Matches(rules[i].exp, value)
  {
    if rules != [] {
      var init := rules[..|rules| - 1];
      NoFailureIffAllMatch(init, value);
      assert forall i :: 0 <= i < |init| ==> init[i] == rules[i];
    }
  }

  /** A failing rule after which every rule matches decides the message. */
  lemma {:induction false} LastFailingRuleWins(rules: seq<Rule>, value: string, i: nat)
    requires i < |rules| && !Matches(rules[i].exp, value)
    requires forall j :: i < j < |rules| ==> Matches(rules[j].exp, value)
    ensures LastFailure(rules, value) == Some(rules[i].err)
  {
    if i < |rules| - 1 {
      var init := rules[..|rules| - 1];
      assert forall j :: 0 <= j < |init| ==> init[j] == rules[j];
      LastFailingRuleWins(init, value, i);
    }
  }

  /** A reported message is that of a failing rule followed only by matching rules. */
  lemma {:induction false} ReportedMessageIsLastFailing(rules: seq<Rule>, value: string, m: string)
    requires LastFailure(rules, value) == Some(m)
    ensures exists i :: 0 <= i < |rules| && !Matches(rules[i].exp, value) && rules[i].err == m &&
                        forall j :: i < j < |rules| ==> Matches(rules[j].exp, value)
  {
    var n := |rules|;
    if Matches(rules[n - 1].exp, value) {
      var init := rules[..n - 1];
      assert forall j :: 0 <= j < |init| ==> init[j] == rules[j];
      ReportedMessageIsLastFailing(init, value, m);
      var i :| 0 <= i < |init| && !Matches(init[i].exp, value) && init[i].err == m &&
               forall j :: i < j < |init| ==> Matches(init[j].exp, value);
      assert !Matches(rules[i].exp, value) && rules[i].err == m;
    }
  }

  /**
    The error `_validate` acts on: none for a field without rules; otherwise the
    last failing rule's message, except that an empty message is falsy and
    counts as no error.
   */
  function FieldError(rules: RuleMap, name: string, value: string): Option<string>
  {
    if name !in rules then None
    else match LastFailure(rules[name], value)
      case Some(m) => if m != "" then Some(m) else None
      case None => None
  }

  /** A field whose name has no rules passes on every value, the empty string included. */
  lemma UnruledFieldPasses(rules: RuleMap, name: string, value: string, st: DisplayState)
    requires name !in rules
    ensures FieldError(rules, name, value) == None
    ensures DisplayAfter(rules, name, value, st) == st
  {
  }

  /** When every message of the field's rules is non-empty, the field fails exactly when some rule fails. */
  lemma FieldFailsIffSomeRuleFails(rules: RuleMap, name: string, value: string)
    requires name in rules
    requires forall i :: 0 <= i < |rules[name]| ==> rules[name][i].err != ""
    ensures FieldError(rules, name, value) != None <==> exists i :: 0 <= i < |rules[name]| && !Matches(rules[name][i].exp, value)
  {
    NoFailureIffAllMatch(rules[name], value);
    var r := LastFailure(rules[name], value);
    if r.Some? {
      ReportedMessageIsLastFailing(rules[name], value, r.value);
    }
  }

  /** `[MIN_LENGTH, ALPHABETIC]` on "1": both fail and ALPHABETIC's message is shown. */
  lemma LastFailingRuleExample()
    ensures FieldError(map["name" := [MIN_LENGTH, ALPHABETIC]], "name", "1") == Some(ALPHABETIC.err)
  {
    var rules := [MIN_LENGTH, ALPHABETIC];
    assert !IsAlphabeticChar("1"[0]);
    LastFailingRuleWins(rules, "1", 1);
  }

  /** A failing rule whose message is empty is reported as a pass. */
  lemma EmptyMessageMasksFailure()
    ensures !Matches(Required, "")
    ensures FieldError(map["name" := [Rule(Required, "")]], "name", "") == None
  {
  }

  /**
    The error display after `_validate`: untouched for a field without rules;
    on an error its text is the message and it is shown; on a pass it is
    hidden and keeps its text.
   */
  function DisplayAfter(rules: RuleMap, name: string, value: string, st: DisplayState): DisplayState
  {
    if name !in rules then st
    else match FieldError(rules, name, value)
      case Some(m) => DisplayState(m, false)
      case None => DisplayState(st.text, true)
  }

  /** Every field passes. */
  predicate AllPass<D>(rules: RuleMap, fields: seq<Field<D>>) {
    forall i :: 0 <= i < |fields| ==> FieldError(rules, fields[i].name, fields[i].value) == None
  }

  /** The state of display `d` after validating `fields` in order, starting from `st`. */
  ghost function Replay<D>(rules: RuleMap, fields: seq<Field<D>>, d: D, st: DisplayState): DisplayState
  {
    if fields == [] then st
    else
      var prev := Replay(rules, fields[..|fields| - 1], d, st);
      var f := fields[|fields| - 1];
      if f.display == Some(d) then DisplayAfter(rules, f.name, f.value, prev) else prev
  }

  /** One more field changes only its own display, as `DisplayAfter` says. */
  lemma ReplayStep<D>(rules: RuleMap, fields: seq<Field<D>>, i: nat, d: D, st: DisplayState)
    requires i < |fields|
    ensures Replay(rules, fields[..i + 1], d, st) ==
            if fields[i].display == Some(d) then DisplayAfter(rules, fields[i].name, fields[i].value, Replay(rules, fields[..i], d, st))
            else Replay(rules, fields[..i], d, st)
  {
    assert fields[..i + 1][..i] == fields[..i];
  }

  /** One more field keeps all passing exactly when it passes too. */
  lemma AllPassStep<D>(rules: RuleMap, fields: seq<Field<D>>, i: nat)
    requires i < |fields|
    ensures AllPass(rules, fields[..i + 1]) <==> AllPass(rules, fields[..i]) && FieldError(rules, fields[i].name, fields[i].value) == None
  {
    assert forall j :: 0 <= j < i ==> fields[..i + 1][j] == fields[..i][j];
  }

  /** A display that no field uses is left as it was. */
  lemma {:induction false} ReplayUnused<D>(rules: RuleMap, fields: seq<Field<D>>, d: D, st: DisplayState)
    requires forall i :: 0 <= i < |fields| ==> fields[i].display != Some(d)
    ensures Replay(rules, fields, d, st) == st
  {
    if fields != [] {
      var init := fields[..|fields| - 1];
      assert forall i :: 0 <= i < |init| ==> init[i] == fields[i];
      ReplayUnused(rules, init, d, st);
    }
  }

  /** A display used by exactly one field ends as that field's validation left it. */
  lemma {:induction false} ReplayOwnDisplay<D>(rules: RuleMap, fields: seq<Field<D>>, k: nat, st: DisplayState)
    requires k < |fields| && fields[k].display.Some?
    requires forall i :: 0 <= i < |fields| && i != k ==> fields[i].display != fields[k].display
    ensures Replay(rules, fields, fields[k].display.value, st) == DisplayAfter(rules, fields[k].name, fields[k].value, st)
  {
    var d := fields[k].display.value;
    var init := fields[..|fields| - 1];
    assert forall i :: 0 <= i < |init| ==> init[i] == fields[i];
    if k == |fields| - 1 {
      ReplayUnused(rules, init, d, st);
    } else {
      ReplayOwnDisplay(rules, init, k, st);
    }
  }

  /** The data object `_handle` fills: each field's value under its name, later fields overwriting earlier ones. */
  function Collect<D>(fields: seq<Field<D>>): map<string, string>
  {
    if fields == [] then map[]
    else Collect(fields[..|fields| - 1])[fields[|fields| - 1].name := fields[|fields| - 1].value]
  }

  /** The data holds one key per field name and no other. */
  lemma {:induction false} CollectKeys<D>(fields: seq<Field<D>>)
    ensures Collect(fields).Keys == set i | 0 <= i < |fields| :: fields[i].name
  {
    if fields != [] {
      var init := fields[..|fields| - 1];
      assert forall i :: 0 <= i < |init| ==> init[i] == fields[i];
      CollectKeys(init);
      assert (set i | 0 <= i < |fields| :: fields[i].name) ==
             (set i | 0 <= i < |init| :: init[i].name) + {fields[|fields| - 1].name};
    }
  }

  /** Under a name, the data holds the value of the last field with that name. */
  lemma {:induction false} CollectLastWins<D>(fields: seq<Field<D>>, k: nat)
    requires k < |fields|
    requires forall j :: k < j < |fields| ==> fields[j].name != fields[k].name
    ensures fields[k].name in Collect(fields) && Collect(fields)[fields[k].name] == fields[k].value
  {
    if k < |fields| - 1 {
      var init := fields[..|fields| - 1];
      assert forall i :: 0 <= i < |init| ==> init[i] == fields[i];
      CollectLastWins(init, k);
    }
  }
}
