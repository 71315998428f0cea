/** The wizard: the `App` singleton, the `Panel` decorators and the `Input`
    records, with the navigation and validation steps that change them. */
module Wizard {
  import opened Values
  import opened Counting
  import Validation
  import Callbacks

  /** What the page says about one `.panel` element: its `data-state` and
      `data-value` attributes. */
  datatype PanelDef = PanelDef(dataState: Option<string>, dataValue: Option<string>)

  /** The mutable flags of one panel, as a value. */
  datatype PanelState = PanelState(isActive: bool, isComplete: bool, hasError: bool, isPresent: bool)

  /** One decorated `input` element: its `id`, `data-validate`,
      `data-callback` and `data-softfail` attributes. */
  datatype Input = Input(id: Option<string>, validate: Option<string>, callback: Option<string>, softfail: Option<string>)
  {
    /** `mustValidate` holds the `data-validate` string; `doValidate` exists when it is truthy. */
    predicate MustValidate() { Truthy(validate) }

    /** A failed validation raises no panel error when `softfail` is truthy. */
    predicate SoftFail() { Truthy(softfail) }

    /** `onValidate` exists only for an input that validates and names a callback. */
    predicate HasOnValidate() { Truthy(validate) && Truthy(callback) }
  }

  /** The rule `doValidate` looks up for an input: `Validation[data-validate]`. */
  function RuleOf(input: Input): Option<Validation.Rule>
    requires input.MustValidate()
  {
    Validation.RuleNamed(input.validate.value)
  }

  /** The hook `onValidate` calls, when the input has an `onValidate` and
      the hook exists. */
  function CallbackOf(input: Input): Option<Callbacks.Callback> {
    if input.HasOnValidate() then Callbacks.CallbackNamed(input.callback.value) else None
  }

  /** `onValidate` exists but names no hook, so calling the hook throws. */
  predicate CallbackThrows(input: Input) {
    input.HasOnValidate() && CallbackOf(input).None?
  }

  /** The `App` properties after `onValidate(pass)`: the hook's property is
      written when the hook runs, otherwise nothing changes. */
  function PropsAfter(props: map<string, string>, input: Input, pass: bool): map<string, string> {
    match CallbackOf(input)
    case None => props
    case Some(cb) => props[Callbacks.Property(cb) := Callbacks.DopeValue(pass)]
  }

  /** The lengths of the text inputs' values, which the `textMulti` scan tests. */
  function Lengths(values: seq<string>): (lengths: seq<nat>)
    ensures |lengths| == |values| && forall k :: 0 <= k < |values| ==> lengths[k] == |values[k]|
  {
    seq(|values|, k requires 0 <= k < |values| => |values[k]|)
  }

  /** The `.each` scan over the text inputs' values passes. */
  predicate ScanPasses(values: seq<string>) {
    LastIsNonZero(Lengths(values))
  }

  /** How an event handler ended: normally, or by a TypeError thrown on a
      missing table entry (an unknown rule, callback or input id). */
  datatype Outcome = Finished | ThrewTypeError

  function Completes(v: seq<PanelState>): (bs: seq<bool>)
    ensures |bs| == |v| && forall k :: 0 <= k < |v| ==> (bs[k] <==> v[k].isComplete)
  {
    seq(|v|, k requires 0 <= k < |v| => v[k].isComplete)
  }

  function Presents(v: seq<PanelState>): (bs: seq<bool>)
    ensures |bs| == |v| && forall k :: 0 <= k < |v| ==> (bs[k] <==> v[k].isPresent)
  {
    seq(|v|, k requires 0 <= k < |v| => v[k].isPresent)
  }

  function Actives(v: seq<PanelState>): (bs: seq<bool>)
    ensures |bs| == |v| && forall k :: 0 <= k < |v| ==> (bs[k] <==> v[k].isActive)
  {
    seq(|v|, k requires 0 <= k < |v| => v[k].isActive)
  }

  /** The clamp `App.set('currentPanel', value)` applies: first up to 0,
      then down to `count - 1`. */
  function Clamp(value: int, count: int): (r: int)
    ensures count >= 1 ==> 0 <= r < count
    ensures 0 <= value < count ==> r == value
    ensures value < 0 && count >= 1 ==> r == 0
    ensures value >= count ==> r == count - 1
    ensures count <= 0 ==> r == count - 1
  {
    var low := if value > 0 then value else 0;
    if low < count then low else count - 1
  }

  /** Every panel's `isActive` refreshed against the current panel `c`. */
  function ActivateOnly(v: seq<PanelState>, c: int): (w: seq<PanelState>)
    ensures |w| == |v|
    ensures forall k :: 0 <= k < |v| ==> w[k] == v[k].(isActive := k == c)
    ensures Completes(w) == Completes(v)
  {
    seq(|v|, k requires 0 <= k < |v| => v[k].(isActive := k == c))
  }

  /** After the refresh exactly one panel is active: the current one. */
  lemma ExactlyOneActive(v: seq<PanelState>, c: int)
    requires 0 <= c < |v|
    ensures Count(Actives(ActivateOnly(v, c))) == 1
    ensures forall k :: 0 <= k < |v| ==> (ActivateOnly(v, c)[k].isActive <==> k == c)
  {
    CountOneHot(Actives(ActivateOnly(v, c)), c);
  }

  /** Panel `c` marked complete. */
  function CompleteAt(v: seq<PanelState>, c: nat): (w: seq<PanelState>)
    requires c < |v|
    ensures |w| == |v|
    ensures forall k :: 0 <= k < |v| && k != c ==> w[k] == v[k]
    ensures w[c].isComplete
    ensures w[c].isActive == v[c].isActive && w[c].hasError == v[c].hasError && w[c].isPresent == v[c].isPresent
  {
    v[c := v[c].(isComplete := true)]
  }

  /** The panel flags after `doValidate` with result `pass` while panel `c`
      is current: a pass completes panel `c`, a hard failure sets its
      `hasError`, a soft failure leaves every flag alone. */
  function Validated(v: seq<PanelState>, c: nat, pass: bool, soft: bool): (w: seq<PanelState>)
    requires c < |v|
    ensures |w| == |v|
    ensures forall k :: 0 <= k < |v| && k != c ==> w[k] == v[k]
    ensures w[c].isActive == v[c].isActive && w[c].isPresent == v[c].isPresent
    ensures w[c].isComplete <==> pass || v[c].isComplete
    ensures w[c].hasError <==> (!pass && !soft) || v[c].hasError
    ensures !pass ==> Completes(w) == Completes(v)
  {
    if pass then CompleteAt(v, c)
    else if !soft then v[c := v[c].(hasError := true)]
    else v
  }

  /** Completing a panel recounts `completed` as one more exactly when that
      panel was not complete before. */
  lemma CompletedAfterComplete(v: seq<PanelState>, c: nat)
    requires c < |v|
    ensures Count(Completes(CompleteAt(v, c))) == Count(Completes(v)) + (if v[c].isComplete then 0 else 1)
  {
    assert Completes(CompleteAt(v, c)) == Completes(v)[c := true];
    CountUpdate(Completes(v), c, true);
  }

  /** `inputs[input.id] = input` for each input element in document order. */
  function Registry(elements: seq<Input>): (m: map<string, Input>)
    ensures forall k :: k in m ==> Key(m[k].id) == k
  {
    if elements == [] then map[]
    else
      var last := elements[|elements| - 1];
      Registry(elements[..|elements| - 1])[Key(last.id) := last]
  }

  /** The registry holds one entry per id that occurs, and for each id the
      last element carrying it: a later duplicate id overwrites an earlier one. */
  lemma {:induction false} RegistryLast(elements: seq<Input>, j: nat)
    requires j < |elements|
    ensures Key(elements[j].id) in Registry(elements)
    ensures (forall l :: j < l < |elements| ==> Key(elements[l].id) != Key(elements[j].id))
            ==> Registry(elements)[Key(elements[j].id)] == elements[j]
  {
    if j < |elements| - 1 {
      RegistryLast(elements[..|elements| - 1], j);
    }
  }

  /** Every registry key is the id of some element. */
  lemma {:induction false} RegistryKeys(elements: seq<Input>, key: string)
    requires key in Registry(elements)
    ensures exists j :: 0 <= j < |elements| && Key(elements[j].id) == key
  {
    var n := |elements|;
    if Key(elements[n - 1].id) != key {
      RegistryKeys(elements[..n - 1], key);
      var j :| 0 <= j < n - 1 && Key(elements[..n - 1][j].id) == key;
      assert elements[j] == elements[..n - 1][j];
    }
  }

  /** The `$('.panel').each` loop's constructor calls: panel `k` is built
      from the `k`-th panel's attributes. */
  method NewPanels(defs: seq<PanelDef>) returns (ps: seq<Panel>)
    ensures |ps| == |defs|
    ensures forall k :: 0 <= k < |defs| ==>
              ps[k].index == k && ps[k].isDependent == None &&
              ps[k].dataState == defs[k].dataState && ps[k].dataValue == defs[k].dataValue
    ensures forall k :: 0 <= k < |defs| ==> fresh(ps[k]) && ps[k].State() == PanelState(k == 0, false, false, true)
  {
    ps := [];
    var i := 0;
    while i < |defs|
      invariant 0 <= i <= |defs| && |ps| == i
      invariant forall k :: 0 <= k < i ==>
                  ps[k].index == k && ps[k].isDependent == None &&
                  ps[k].dataState == defs[k].dataState && ps[k].dataValue == defs[k].dataValue
      invariant forall k :: 0 <= k < i ==> fresh(ps[k]) && ps[k].State() == PanelState(k == 0, false, false, true)
    {
      // the creator's options carry `isDependent`, not `state`
      var p := new Panel(i, None, defs[i]);
      ps := ps + [p];
      i := i + 1;
    }
  }

  /** The `$('input').each` loop: every input is stored under its id, a
      later input replacing an earlier one with the same id. */
  method RegisterInputs(elements: seq<Input>) returns (m: map<string, Input>)
    ensures m == Registry(elements)
  {
    m := map[];
    var j := 0;
    while j < |elements|
      invariant 0 <= j <= |elements| && m == Registry(elements[..j])
    {
      assert elements[..j + 1][..j] == elements[..j];
      m := m[Key(elements[j].id) := elements[j]];
      j := j + 1;
    }
    assert elements[..j] == elements;
  }

  /** A panel decorator. `index` and the `data-` attributes never change;
      the four flags are what the wizard updates. */
  class Panel {
    const index: int
    const isDependent: Option<string>
    const dataState: Option<string>
    const dataValue: Option<string>
    var isActive: bool
    var isComplete: bool
    var hasError: bool
    var isPresent: bool

    /** `new Panel(options)`: `isDependent` is read from `options.state`. */
    constructor (index: int, state: Option<string>, def: PanelDef)
      ensures this.index == index && isDependent == state
      ensures dataState == def.dataState && dataValue == def.dataValue
      ensures State() == PanelState(index == 0, false, false, true)
    {
      this.index := index;
      hasError := false;
      isActive := index == 0;
      isComplete := false;
      isDependent := state;
      isPresent := true;
      dataState := def.dataState;
      dataValue := def.dataValue;
    }

    function State(): PanelState
      reads this
    {
      PanelState(isActive, isComplete, hasError, isPresent)
    }

    /** `setActive(current)`: a falsy `current` (absent or 0) falls back to
        `App.currentPanel`; the panel is active iff its index matches. */
    method SetActive(current: Option<int>, appCurrent: int)
      modifies this`isActive
      ensures isActive <==> index == (if current.Some? && current.value != 0 then current.value else appCurrent)
    {
      var c := if current.Some? && current.value != 0 then current.value else appCurrent;
      isActive := c == index;
    }

    /** `setIsPresent()`: present iff the panel has no dependency or the app
        property named by `data-state` is strictly equal to `data-value`. */
    method SetIsPresent(app: App)
      modifies this`isPresent
      ensures isPresent <==> !Truthy(isDependent) || app.Get(dataState) == AttrValue(dataValue)
    {
      isPresent := !Truthy(isDependent) || app.Get(dataState) == AttrValue(dataValue);
    }

    /** `onComplete()`: mark this panel complete, then `App.forward()`. */
    method OnComplete(app: App) returns (scheduled: bool)
      requires app.Valid() && app.panels[app.currentPanel] == this
      modifies this`isComplete, app`completed
      ensures app.Valid()
      ensures index == app.currentPanel
      ensures app.View() == CompleteAt(old(app.View()), index)
      ensures scheduled
      ensures app.completed == old(app.completed) + (if old(isComplete) then 0 else 1)
    {
      isComplete := true;
      assert app.View() == CompleteAt(old(app.View()), index);
      CompletedAfterComplete(old(app.View()), index);
      scheduled := app.Forward();
    }

    /** `onError(err)`: record the error; the message only goes to the log. */
    method OnError(err: string)
      modifies this`hasError
      ensures hasError
    {
      hasError := true;
    }
  }

  /** The `App` singleton together with the `panels` list and the `inputs`
      dictionary it works over. */
  class App {
    var currentPanel: int
    var completed: int
    var currentNumPanels: int
    /** Properties other than the three counters, stored as given (`isDope`). */
    var props: map<string, string>
    const panels: seq<Panel>
    const inputs: map<string, Input>

    /** The shape of the state: panel `k` sits at position `k`, no panel is
        dependent (the creator never passes `state`), so every panel is
        present and `currentNumPanels` is the panel count, and
        `currentPanel` indexes a panel. */
    ghost predicate Wellformed()
      reads this, panels
    {
      |panels| >= 1 &&
      (forall k :: 0 <= k < |panels| ==> panels[k].index == k) &&
      (forall k :: 0 <= k < |panels| ==> panels[k].isDependent == None && panels[k].isPresent) &&
      currentNumPanels == |panels| &&
      0 <= currentPanel < |panels|
    }

    /** The state every handler finds and leaves: well formed, and
        `completed` is the number of complete panels. Every completion goes
        through the current panel, so `forward`'s gate passes and recounts
        after it. */
    ghost predicate Valid()
      reads this, panels
    {
      Wellformed() && completed == Count(Completes(View()))
    }

    /** The panels' flags in panel order. */
    ghost function View(): (v: seq<PanelState>)
      reads panels
      ensures |v| == |panels| && forall k :: 0 <= k < |panels| ==> v[k] == panels[k].State()
    {
      seq(|panels|, k requires 0 <= k < |panels| reads panels => panels[k].State())
    }

    /** `App.get(prop)`, `prop` being an attribute that may be absent. */
    function Get(prop: Option<string>): (v: JsValue)
      reads this
      ensures v.Num? <==> Key(prop) in {"currentPanel", "completed", "currentNumPanels"}
      ensures Key(prop) == "currentPanel" ==> v == Num(currentPanel)
      ensures Key(prop) == "completed" ==> v == Num(completed)
      ensures Key(prop) == "currentNumPanels" ==> v == Num(currentNumPanels)
      ensures v.Str? <==> Key(prop) in props && Key(prop) !in {"currentPanel", "completed", "currentNumPanels"}
      ensures v.Str? ==> v.s == props[Key(prop)]
    {
      var key := Key(prop);
      if key == "currentPanel" then Num(currentPanel)
      else if key == "completed" then Num(completed)
      else if key == "currentNumPanels" then Num(currentNumPanels)
      else if key in props then Str(props[key])
      else if key in {"get", "set", "forward", "backward"} then Function
      else Undefined
    }

    /** The initial script: decorate every `.panel` (calling `setActive()`
        and `setIsPresent()` on each and recounting `currentNumPanels`),
        then register every `input` by id. */
    constructor (defs: seq<PanelDef>, elements: seq<Input>)
      ensures |panels| == |defs| && inputs == Registry(elements)
      ensures forall k :: 0 <= k < |panels| ==> fresh(panels[k])
      ensures forall k :: 0 <= k < |defs| ==>
                panels[k].index == k && panels[k].isDependent == None &&
                panels[k].dataState == defs[k].dataState && panels[k].dataValue == defs[k].dataValue
      ensures forall k :: 0 <= k < |defs| ==> panels[k].State() == PanelState(k == 0, false, false, true)
      ensures currentPanel == 0 && completed == 0 && props == map["isDope" := "no"]
      ensures currentNumPanels == if defs == [] then 1 else |defs|
      ensures defs != [] ==> Valid()
    {
      var ps := NewPanels(defs);
      var m := RegisterInputs(elements);
      currentPanel, completed, currentNumPanels := 0, 0, 1;
      props := map["isDope" := "no"];
      panels, inputs := ps, m;
      new;
      Decorate();
      if panels != [] {
        CountInitialPanels();
      }
    }

    /** The `panel.setActive()` and `panel.setIsPresent()` calls the
        start-up loop makes on every panel. */
    method Decorate()
      requires forall k :: 0 <= k < |panels| ==> panels[k].index == k && panels[k].isDependent == None
      requires forall k :: 0 <= k < |panels| ==> !panels[k].isComplete && !panels[k].hasError
      modifies panels
      ensures unchanged(this)
      ensures forall k :: 0 <= k < |panels| ==> panels[k].State() == PanelState(k == currentPanel, false, false, true)
    {
      var i := 0;
      while i < |panels|
        invariant 0 <= i <= |panels|
        invariant forall k :: 0 <= k < |panels| ==> !panels[k].isComplete && !panels[k].hasError
        invariant forall k :: 0 <= k < i ==> panels[k].isActive == (k == currentPanel) && panels[k].isPresent
      {
        panels[i].SetActive(None, currentPanel);
        panels[i].SetIsPresent(this);
        i := i + 1;
      }
    }

    /** The start-up `App.set('currentNumPanels')` once every panel is
        decorated: every panel counts, and the invariant holds. */
    method CountInitialPanels()
      requires |panels| >= 1 && currentPanel == 0 && completed == 0
      requires forall k :: 0 <= k < |panels| ==> panels[k].index == k && panels[k].isDependent == None
      requires forall k :: 0 <= k < |panels| ==> panels[k].State() == PanelState(k == 0, false, false, true)
      modifies this`currentNumPanels
      ensures View() == old(View()) && currentNumPanels == |panels|
      ensures Valid()
    {
      ghost var v := View();
      CountAll(Presents(v));
      CountZero(Completes(v));
      SetCurrentNumPanels();
    }

    /** `App.set('currentPanel', value)`. */
    method SetCurrentPanel(value: int)
      modifies this`currentPanel
      ensures currentPanel == Clamp(value, currentNumPanels)
    {
      var current := if value > 0 then value else 0;
      current := if current < currentNumPanels then current else currentNumPanels - 1;
      currentPanel := current;
    }

    /** The count of complete panels, as `App.set('completed')` computes it. */
    method CountCompleted() returns (n: nat)
      ensures n == Count(Completes(View()))
    {
      ghost var bs := Completes(View());
      n := 0;
      var i := 0;
      while i < |panels|
        invariant 0 <= i <= |panels|
        invariant n == Count(bs[..i])
      {
        assert bs[..i + 1][..i] == bs[..i];
        if panels[i].isComplete {
          n := n + 1;
        }
        i := i + 1;
      }
      assert bs[..i] == bs;
    }

    /** The count of present panels, as `App.set('currentNumPanels')` computes it. */
    method CountPresent() returns (n: nat)
      ensures n == Count(Presents(View()))
    {
      ghost var bs := Presents(View());
      n := 0;
      var i := 0;
      while i < |panels|
        invariant 0 <= i <= |panels|
        invariant n == Count(bs[..i])
      {
        assert bs[..i + 1][..i] == bs[..i];
        if panels[i].isPresent {
          n := n + 1;
        }
        i := i + 1;
      }
      assert bs[..i] == bs;
    }

    /** `App.set('completed', anything)`: the value passed is ignored. */
    method SetCompleted()
      modifies this`completed
      ensures completed == Count(Completes(View()))
      ensures View() == old(View())
    {
      completed := CountCompleted();
    }

    /** `App.set('currentNumPanels', anything)`: the value passed is ignored. */
    method SetCurrentNumPanels()
      modifies this`currentNumPanels
      ensures currentNumPanels == Count(Presents(View()))
      ensures View() == old(View())
    {
      currentNumPanels := CountPresent();
    }

    /** `App.set(name, value)` for any other property: stored as given. */
    method SetProp(name: string, value: string)
      requires name !in {"currentPanel", "completed", "currentNumPanels"}
      modifies this`props
      ensures props == old(props)[name := value]
      ensures Get(Some(name)) == Str(value)
    {
      props := props[name := value];
    }

    /** `App.forward()`: only when the current panel is complete, recount
        `completed` and schedule the deferred advance (`ForwardFire`). */
    method Forward() returns (scheduled: bool)
      requires Wellformed()
      modifies this`completed
      ensures Wellformed()
      ensures old(Valid()) || scheduled ==> Valid()
      ensures scheduled <==> panels[currentPanel].isComplete
      ensures completed == if scheduled then Count(Completes(View())) else old(completed)
    {
      scheduled := panels[currentPanel].isComplete;
      if scheduled {
        SetCompleted();
      }
    }

    /** The continuation `App.forward()` schedules: move to the next panel,
        clamped to the last one, and refresh every `isActive`. It does not
        look at completeness again. */
    method ForwardFire()
      requires Valid()
      modifies this`currentPanel, panels
      ensures Valid()
      ensures currentPanel == if old(currentPanel) + 1 < |panels| then old(currentPanel) + 1 else |panels| - 1
      ensures View() == ActivateOnly(old(View()), currentPanel)
    {
      SetCurrentPanel(currentPanel + 1);
      RefreshActive();
    }

    /** `App.backward()`: move to the previous panel, never below 0, and
        refresh every `isActive`; no completeness check and no delay. */
    method Backward()
      requires Valid()
      modifies this`currentPanel, panels
      ensures Valid()
      ensures currentPanel == if old(currentPanel) > 0 then old(currentPanel) - 1 else 0
      ensures View() == ActivateOnly(old(View()), currentPanel)
    {
      SetCurrentPanel(currentPanel - 1);
      RefreshActive();
    }

    /** `$(panels).each(function(){ this.setActive(App.currentPanel) })`. */
    method RefreshActive()
      requires Valid()
      modifies panels
      ensures Valid()
      ensures View() == ActivateOnly(old(View()), currentPanel)
    {
      var i := 0;
      while i < |panels|
        invariant 0 <= i <= |panels|
        invariant Wellformed()
        invariant forall k :: 0 <= k < |panels| ==>
                    panels[k].isComplete == old(panels[k].isComplete) && panels[k].hasError == old(panels[k].hasError) &&
                    panels[k].isPresent == old(panels[k].isPresent)
        invariant forall k :: 0 <= k < i ==> panels[k].isActive == (k == currentPanel)
        invariant forall k :: i <= k < |panels| ==> panels[k].isActive == old(panels[k].isActive)
      {
        panels[i].SetActive(Some(currentPanel), currentPanel);
        i := i + 1;
      }
      assert View() == ActivateOnly(old(View()), currentPanel);
    }

    /** `$(panels).each(function(){ this.setIsPresent() })`. */
    method RefreshPresence()
      requires Valid()
      modifies panels
      ensures Valid()
      ensures forall k :: 0 <= k < |panels| ==>
                (panels[k].isPresent <==> !Truthy(panels[k].isDependent) || Get(panels[k].dataState) == AttrValue(panels[k].dataValue))
      ensures View() == old(View())
    {
      var i := 0;
      while i < |panels|
        invariant 0 <= i <= |panels|
        invariant forall k :: 0 <= k < |panels| ==> panels[k].State() == old(panels[k].State())
        invariant View() == old(View())
        invariant Valid()
      {
        panels[i].SetIsPresent(this);
        i := i + 1;
      }
    }

    /** `Callbacks[name](didPass)` for a known hook. */
    method RunCallback(cb: Callbacks.Callback, didPass: bool)
      modifies this`props
      ensures props == old(props)[Callbacks.Property(cb) := Callbacks.DopeValue(didPass)]
      ensures cb == Callbacks.UpdateIsDope ==> Get(Some("isDope")) == Str(if didPass then "yes" else "no")
    {
      match cb
      case UpdateIsDope =>
        SetProp("isDope", Callbacks.DopeValue(didPass));
    }

    /** `onValidate(didPass)`: run the input's callback, then recompute every
        panel's presence. An unknown callback name throws before the recompute. */
    method OnValidate(input: Input, didPass: bool) returns (outcome: Outcome)
      requires Valid() && input.HasOnValidate()
      modifies this`props, panels
      ensures Valid() && View() == old(View())
      ensures var cb := Callbacks.CallbackNamed(input.callback.value);
              (outcome == ThrewTypeError <==> cb.None?) &&
              props == if cb.None? then old(props)
                       else old(props)[Callbacks.Property(cb.value) := Callbacks.DopeValue(didPass)]
      ensures (outcome == ThrewTypeError <==> CallbackThrows(input)) && props == PropsAfter(old(props), input, didPass)
    {
      var cb := Callbacks.CallbackNamed(input.callback.value);
      if cb.None? {
        return ThrewTypeError;
      }
      RunCallback(cb.value, didPass);
      RefreshPresence();
      outcome := Finished;
    }

    /** The branch of `doValidate` on the validation result: a pass
        completes the current panel, a failure that is not soft raises
        `message` on it, a soft failure changes nothing. */
    method ReportResult(results: bool, soft: bool, message: string) returns (scheduled: nat)
      requires Valid()
      modifies this`completed, panels
      ensures Valid()
      ensures View() == Validated(old(View()), currentPanel, results, soft)
      ensures scheduled == if results then 1 else 0
    {
      var current := panels[currentPanel];
      scheduled := 0;
      if results {
        var s := current.OnComplete(this);
        var advances: int := if s then 1 else 0;
        scheduled := advances;
      } else if !soft {
        current.OnError(message);
        assert View() == Validated(old(View()), currentPanel, results, soft);
      }
    }

    /** `inputs[id].doValidate()` for the input element with value `val`:
        test the value with the input's rule; a pass completes the CURRENT
        panel (and so forwards), a failure that is not soft raises an error
        on the current panel; then `onValidate` runs when the input has one. */
    method DoValidate(id: string, val: string) returns (outcome: Outcome, scheduled: nat)
      requires Valid() && id in inputs && inputs[id].MustValidate()
      requires inputs[id].validate.value != "isNumeric"
      modifies this`completed, this`props, panels
      ensures Valid()
      ensures RuleOf(inputs[id]).None? ==>
                outcome == ThrewTypeError && scheduled == 0 && View() == old(View()) &&
                completed == old(completed) && props == old(props)
      ensures var input := inputs[id];
              RuleOf(input).Some? ==>
                var pass := Validation.Test(RuleOf(input).value, val);
                View() == Validated(old(View()), old(currentPanel), pass, input.SoftFail()) &&
                scheduled == (if pass then 1 else 0) &&
                completed == (if pass then Count(Completes(View())) else old(completed)) &&
                (outcome == ThrewTypeError <==> CallbackThrows(input)) &&
                props == PropsAfter(old(props), input, pass)
    {
      var input := inputs[id];
      var rule := Validation.RuleNamed(input.validate.value);
      if rule.None? {
        return ThrewTypeError, 0;
      }
      var results := Validation.Test(rule.value, val);
      scheduled := ReportResult(results, input.SoftFail(), Validation.Message(rule.value));
      outcome := Finished;
      if input.HasOnValidate() {
        outcome := OnValidate(input, results);
      }
    }

    /** The `affirm` and `radioSingle` click handler:
        `panels[App.currentPanel].onComplete()`. */
    method CompleteCurrent() returns (scheduled: nat)
      requires Valid()
      modifies this`completed, panels
      ensures Valid()
      ensures View() == CompleteAt(old(View()), currentPanel)
      ensures scheduled == 1 && completed == Count(Completes(View()))
    {
      var s := panels[currentPanel].OnComplete(this);
      var advances: int := if s then 1 else 0;
      scheduled := advances;
    }

    /** The `textSingle` blur handler for the panel's input `id`: validate
        when the input must be validated, otherwise complete the current panel. */
    method OnTextSingleBlur(id: string, val: string) returns (outcome: Outcome, scheduled: nat)
      requires Valid()
      requires id in inputs && inputs[id].MustValidate() ==> inputs[id].validate.value != "isNumeric"
      modifies this`completed, this`props, panels
      ensures Valid()
      ensures id !in inputs ==>
                outcome == ThrewTypeError && scheduled == 0 && View() == old(View()) &&
                completed == old(completed) && props == old(props)
      ensures id in inputs && !inputs[id].MustValidate() ==>
                outcome == Finished && scheduled == 1 && View() == CompleteAt(old(View()), currentPanel) &&
                completed == Count(Completes(View())) && props == old(props)
      ensures id in inputs && inputs[id].MustValidate() && RuleOf(inputs[id]).None? ==>
                outcome == ThrewTypeError && scheduled == 0 && View() == old(View()) &&
                completed == old(completed) && props == old(props)
      ensures id in inputs && inputs[id].MustValidate() && RuleOf(inputs[id]).Some? ==>
                var input := inputs[id];
                var pass := Validation.Test(RuleOf(input).value, val);
                View() == Validated(old(View()), currentPanel, pass, input.SoftFail()) &&
                scheduled == (if pass then 1 else 0) &&
                completed == (if pass then Count(Completes(View())) else old(completed)) &&
                (outcome == ThrewTypeError <==> CallbackThrows(input)) &&
                props == PropsAfter(old(props), input, pass)
    {
      if id !in inputs {
        return ThrewTypeError, 0;
      }
      if inputs[id].MustValidate() {
        outcome, scheduled := DoValidate(id, val);
      } else {
        scheduled := CompleteCurrent();
        outcome := Finished;
      }
    }

    /** The `textMulti` blur handler for input `id` with value `val`, where
        `values` are the values of all the panel's inputs: validate the
        blurred input if needed, then complete the current panel when the
        `.each` scan passes, which looks only at the last input. Both steps
        can complete the current panel, scheduling two advances. */
    method OnTextMultiBlur(id: string, val: string, values: seq<string>) returns (outcome: Outcome, scheduled: nat)
      requires Valid()
      requires id in inputs && inputs[id].MustValidate() ==> inputs[id].validate.value != "isNumeric"
      modifies this`completed, this`props, panels
      ensures Valid()
      ensures id !in inputs ==>
                outcome == ThrewTypeError && scheduled == 0 && View() == old(View()) &&
                completed == old(completed) && props == old(props)
      ensures id in inputs && !inputs[id].MustValidate() ==>
                outcome == Finished && props == old(props) &&
                scheduled == (if ScanPasses(values) then 1 else 0) &&
                View() == (if ScanPasses(values) then CompleteAt(old(View()), currentPanel) else old(View())) &&
                completed == (if ScanPasses(values) then Count(Completes(View())) else old(completed))
      ensures id in inputs && inputs[id].MustValidate() && RuleOf(inputs[id]).None? ==>
                outcome == ThrewTypeError && scheduled == 0 && View() == old(View()) &&
                completed == old(completed) && props == old(props)
      ensures id in inputs && inputs[id].MustValidate() && RuleOf(inputs[id]).Some? ==>
                var input := inputs[id];
                var pass := Validation.Test(RuleOf(input).value, val);
                var validated := Validated(old(View()), currentPanel, pass, input.SoftFail());
                var scan := !CallbackThrows(input) && ScanPasses(values);
                (outcome == ThrewTypeError <==> CallbackThrows(input)) &&
                props == PropsAfter(old(props), input, pass) &&
                View() == (if scan then CompleteAt(validated, currentPanel) else validated) &&
                scheduled == (if pass then 1 else 0) + (if scan then 1 else 0) &&
                completed == (if pass || scan then Count(Completes(View())) else old(completed))
    {
      if id !in inputs {
        return ThrewTypeError, 0;
      }
      scheduled := 0;
      outcome := Finished;
      if inputs[id].MustValidate() {
        outcome, scheduled := DoValidate(id, val);
        if outcome == ThrewTypeError {
          return;
        }
      }
      var s := CompleteOnScan(Lengths(values));
      scheduled := scheduled + s;
    }

    /** The scan shared by the `textMulti` and `radioMulti` handlers: the
        `.each` loop over `lengths` leaves `pass` from its last entry, and
        the current panel is completed when it passes. */
    method CompleteOnScan(lengths: seq<nat>) returns (scheduled: nat)
      requires Valid()
      modifies this`completed, panels
      ensures Valid()
      ensures scheduled == if LastIsNonZero(lengths) then 1 else 0
      ensures View() == if LastIsNonZero(lengths) then CompleteAt(old(View()), currentPanel) else old(View())
    {
      var pass := LastNonZero(lengths);
      scheduled := 0;
      if pass {
        scheduled := CompleteCurrent();
      }
    }

    /** The `radioMulti` click handler, `checked[g]` being the number of
        checked inputs of radio group `g`: complete the current panel when
        the scan passes, which looks only at the last group. */
    method OnRadioMultiClick(checked: seq<nat>) returns (scheduled: nat)
      requires Valid()
      modifies this`completed, panels
      ensures Valid()
      ensures scheduled == if LastIsNonZero(checked) then 1 else 0
      ensures scheduled == 1 ==> View() == CompleteAt(old(View()), currentPanel) && completed == Count(Completes(View()))
      ensures scheduled == 0 ==> View() == old(View()) && completed == old(completed)
    {
      scheduled := CompleteOnScan(checked);
    }
  }
}
