/** Walks through the wizard using only the contracts of `Wizard`. */
module Scenarios {
  import opened Values
  import opened Wizard
  import Counting

  /** Two panels, the first answered by a single radio click: it becomes
      complete, and once the deferred advance runs the second panel is the
      current and only active one. Going back returns to panel 0 and a
      second step back stays there. */
  method RadioSingleThenBack() {
    var none := PanelDef(None, None);
    var app := new App([none, none], []);
    assert app.View()[0].isActive && !app.View()[1].isActive;
    var scheduled := app.CompleteCurrent();
    assert scheduled == 1 && app.View()[0].isComplete;
    app.ForwardFire();
    assert app.currentPanel == 1;
    assert app.View()[1].isActive && !app.View()[0].isActive;
    app.Backward();
    assert app.currentPanel == 0;
    app.Backward();
    assert app.currentPanel == 0 && app.View()[0].isActive;
  }

  /** Recounting `completed` twice gives the same value as once. */
  method RecountIsIdempotent(app: App)
    requires app.Valid()
    modifies app`completed
  {
    app.SetCompleted();
    var first := app.completed;
    app.SetCompleted();
    assert app.completed == first;
  }

  /** Forward from an incomplete panel changes nothing; the panel stays put. */
  method ForwardNeedsCompletion() {
    var none := PanelDef(None, None);
    var app := new App([none, none, none], []);
    var scheduled := app.Forward();
    assert !scheduled && app.completed == 0 && app.currentPanel == 0;
  }

  /** A soft-failing required field on an empty value raises no panel error,
      and a validation callback writes "no" into `isDope`. */
  method SoftFailRaisesNoError() {
    var none := PanelDef(None, None);
    var field := Input(Some("name"), Some("isRequired"), Some("updateIsDope"), Some("true"));
    var app := new App([none, none], [field]);
    assert app.inputs["name"] == field;
    var outcome, scheduled := app.DoValidate("name", "");
    assert outcome == Finished && scheduled == 0;
    assert !app.View()[0].hasError && !app.View()[0].isComplete;
    assert app.props["isDope"] == "no";
  }

  /** A required text field blurred empty raises an error on the current
      panel and leaves it incomplete. */
  method RequiredTextFieldBlurredEmpty() {
    var none := PanelDef(None, None);
    var field := Input(Some("name"), Some("isRequired"), None, None);
    var app := new App([none, none], [field]);
    assert app.inputs["name"] == field;
    var outcome, scheduled := app.OnTextSingleBlur("name", "");
    assert outcome == Finished && scheduled == 0;
    assert app.View()[0].hasError && !app.View()[0].isComplete;
  }

  /** On a multi-input text panel whose last input is empty, a blur of a
      field that does not validate changes nothing. */
  method TextMultiLastEmpty() {
    var none := PanelDef(None, None);
    var field := Input(Some("first"), None, None, None);
    var app := new App([none, none], [field]);
    assert app.inputs["first"] == field;
    ghost var before := app.View();
    var outcome, scheduled := app.OnTextMultiBlur("first", "x", ["x", ""]);
    assert outcome == Finished && scheduled == 0 && app.View() == before;
  }

  /** Radio groups: an empty last group changes nothing, a checked last
      group completes the current panel even when the first is empty. */
  method RadioMultiLastGroupDecides() {
    var none := PanelDef(None, None);
    var app := new App([none, none], []);
    ghost var before := app.View();
    var scheduled := app.OnRadioMultiClick([1, 0]);
    assert scheduled == 0 && app.View() == before && app.completed == 0;
    scheduled := app.OnRadioMultiClick([0, 1]);
    assert scheduled == 1 && app.View()[0].isComplete;
    CountCompletedFirstOfTwo(app.View());
    assert app.completed == 1;
  }

  /** Two panels of which only the first is complete count one. */
  lemma CountCompletedFirstOfTwo(v: seq<PanelState>)
    requires |v| == 2 && v[0].isComplete && !v[1].isComplete
    ensures Counting.Count(Completes(v)) == 1
  {
    Counting.CountOneHot(Completes(v), 0);
  }
}
