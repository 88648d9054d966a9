/**
  `FormValidator`: binds to one form, validates its inputs one at a time or
  all together on submit, shows or hides each input's error display, and hands
  the collected data to the registered data handler after a submit in which
  every input passes.

  The DOM is represented abstractly: an input is an object with a name, a
  current value and the error display found next to it (if any); a form is
  the list of its inputs; `addEventListener`/`removeEventListener` act on a
  registry of (target, event, handler identity) triples, and every
  `.bind(this)` creates a new handler identity.
 */
module Validator {
  import opened Wrappers
  import opened Checks
  import opened FieldRules

  /** An element with the class `form__error`: its text and its `form__error_hidden` class. */
  class ErrorDisplay {
    var text: string
    var hidden: bool

    constructor (text: string, hidden: bool)
      ensures this.text == text && this.hidden == hidden
    {
      this.text := text;
      this.hidden := hidden;
    }

    function State(): DisplayState
      reads this
    {
      DisplayState(text, hidden)
    }
  }

  /**
    An `input` element: its `name`, its current `value` (which the page may
    change between events) and the result of
    `parentNode.querySelector('.form__error')`, `None` when there is no parent
    or no such element.
   */
  class InputField {
    const name: string
    var value: string
    const display: Option<ErrorDisplay>

    constructor (name: string, value: string, display: Option<ErrorDisplay>)
      ensures this.name == name && this.value == value && this.display == display
    {
      this.name := name;
      this.value := value;
      this.display := display;
    }

    function Snapshot(): Field<ErrorDisplay>
      reads this
    {
      Field(name, value, display)
    }
  }

  /** A form element; `inputs` is its `querySelectorAll('input')`. */
  class Form {
    const inputs: seq<InputField>

    constructor (inputs: seq<InputField>)
      ensures this.inputs == inputs
    {
      this.inputs := inputs;
    }
  }

  /** The inputs' names, current values and displays, in order. */
  ghost function View(ins: seq<InputField>): (v: seq<Field<ErrorDisplay>>)
    reads ins
    ensures |v| == |ins| && forall i :: 0 <= i < |ins| ==> v[i] == ins[i].Snapshot()
  {
    if ins == [] then [] else View(ins[..|ins| - 1]) + [ins[|ins| - 1].Snapshot()]
  }

  lemma ViewPrefix(ins: seq<InputField>, k: nat)
    requires k <= |ins|
    ensures View(ins[..k]) == View(ins)[..k]
  {
    assert forall i :: 0 <= i < k ==> View(ins[..k])[i] == View(ins)[i];
  }

  /** The error displays an input may change. */
  ghost function DisplayOf(f: InputField): set<ErrorDisplay> {
    if f.display.Some? then {f.display.value} else {}
  }

  /** The error displays of a list of inputs. */
  ghost function Displays(ins: seq<InputField>): set<ErrorDisplay> {
    set i | 0 <= i < |ins| && ins[i].display.Some? :: ins[i].display.value
  }

  /** The events on which an input is re-validated. */
  const INPUT_EVENTS := ["blur", "keydown", "keyup"]

  datatype Action = ValidateField | SubmitForm

  /** A function object made by `.bind(this)`: its identity and the method it calls. */
  datatype Handler = Handler(id: nat, action: Action)

  datatype Listener = Listener(target: object, event: string, handler: Handler)

  /**
    The event-listener table of the document. `created` counts the handler
    objects made so far; every registered handler is one of them.
   */
  class EventRegistry {
    var listeners: set<Listener>
    var created: nat

    ghost predicate Valid()
      reads this
    {
      forall l | l in listeners :: l.handler.id < created
    }

    constructor ()
      ensures Valid() && listeners == {} && created == 0
    {
      listeners := {};
      created := 0;
    }

    /** `method.bind(obj)`: a new function object, distinct from every earlier one. */
    method Bind(action: Action) returns (h: Handler)
      requires Valid()
      modifies this
      ensures Valid()
      ensures h == Handler(old(created), action) && created == old(created) + 1
      ensures listeners == old(listeners)
    {
      h := Handler(created, action);
      created := created + 1;
    }

    /** `target.addEventListener(event, h)`; adding a registered triple again changes nothing. */
    method AddEventListener(target: object, event: string, h: Handler)
      requires Valid() && h.id < created
      modifies this
      ensures Valid()
      ensures listeners == old(listeners) + {Listener(target, event, h)} && created == old(created)
    {
      listeners := listeners + {Listener(target, event, h)};
    }

    /** `target.removeEventListener(event, h)`: removes the triple if it is registered. */
    method RemoveEventListener(target: object, event: string, h: Handler)
      requires Valid()
      modifies this
      ensures Valid()
      ensures listeners == old(listeners) - {Listener(target, event, h)} && created == old(created)
    {
      listeners := listeners - {Listener(target, event, h)};
    }
  }

  /** Some handler made at or after `from` that runs `action` listens for `event` on `target`. */
  ghost predicate Listening(ls: set<Listener>, target: object, event: string, action: Action, from: nat) {
    exists l | l in ls :: l.target == target && l.event == event && l.handler.action == action && from <= l.handler.id
  }

  /**
    Between `before` and `ls` only listeners were added, each with a handler
    made at or after `from`, each validating an input of `ins` on an input
    event or submitting `form`.
   */
  ghost predicate GrewFor(ls: set<Listener>, before: set<Listener>, from: nat, form: Form, ins: seq<InputField>) {
    && before <= ls
    && forall l | l in ls - before ::
         && from <= l.handler.id
         && ((exists i, k | 0 <= i < |ins| && 0 <= k < |INPUT_EVENTS| ::
                l == Listener(ins[i], INPUT_EVENTS[k], l.handler) && l.handler.action == ValidateField)
             || (l.target == form && l.event == "submit" && l.handler.action == SubmitForm))
  }

  /**
    The listeners for `event` that the inner loop of `_bindListeners` adds to
    `ins` when `c` handlers have been made before it: one per input, the i-th
    with the (c + i)-th handler.
   */
  ghost function FreshOnInputs(ins: seq<InputField>, event: string, c: nat): set<Listener>
  {
    if ins == [] then {}
    else FreshOnInputs(ins[..|ins| - 1], event, c) + {Listener(ins[|ins| - 1], event, Handler(c + |ins| - 1, ValidateField))}
  }

  /** The listeners the loop over `events` adds: the k-th event's handlers come after those of the earlier events. */
  ghost function FreshOnEvents(ins: seq<InputField>, events: seq<string>, c: nat): set<Listener>
  {
    if events == [] then {}
    else FreshOnEvents(ins, events[..|events| - 1], c) + FreshOnInputs(ins, events[|events| - 1], c + (|events| - 1) * |ins|)
  }

  /** One more event adds its inputs' listeners, with the handlers after those of the earlier events. */
  lemma FreshOnEventsStep(ins: seq<InputField>, e: nat, c: nat)
    requires e < |INPUT_EVENTS|
    ensures FreshOnEvents(ins, INPUT_EVENTS[..e + 1], c) ==
            FreshOnEvents(ins, INPUT_EVENTS[..e], c) + FreshOnInputs(ins, INPUT_EVENTS[e], c + e * |ins|)
    ensures c + (e + 1) * |ins| == c + e * |ins| + |ins|
  {
    assert INPUT_EVENTS[..e + 1][..e] == INPUT_EVENTS[..e];
  }

  /** Everything `_bindListeners` registers when `c` handlers have been made before it. */
  ghost function FreshBinding(form: Form, ins: seq<InputField>, c: nat): set<Listener>
  {
    FreshOnEvents(ins, INPUT_EVENTS, c) + {Listener(form, "submit", Handler(c + |INPUT_EVENTS| * |ins|, SubmitForm))}
  }

  lemma {:induction false} FreshOnInputsMembers(ins: seq<InputField>, event: string, c: nat, l: Listener)
    ensures l in FreshOnInputs(ins, event, c) <==>
            exists i | 0 <= i < |ins| :: l == Listener(ins[i], event, Handler(c + i, ValidateField))
  {
    if ins != [] {
      var init := ins[..|ins| - 1];
      FreshOnInputsMembers(init, event, c, l);
      assert forall i | 0 <= i < |init| :: init[i] == ins[i];
    }
  }

  lemma {:induction false} FreshOnEventsMembers(ins: seq<InputField>, events: seq<string>, c: nat, l: Listener)
    ensures l in FreshOnEvents(ins, events, c) <==>
            exists i, k | 0 <= i < |ins| && 0 <= k < |events| ::
              l == Listener(ins[i], events[k], Handler(c + k * |ins| + i, ValidateField))
  {
    if events != [] {
      var n := |events| - 1;
      var init := events[..n];
      FreshOnEventsMembers(ins, init, c, l);
      FreshOnInputsMembers(ins, events[n], c + n * |ins|, l);
      assert forall k | 0 <= k < |init| :: init[k] == events[k];
      if l in FreshOnInputs(ins, events[n], c + n * |ins|) {
        var i :| 0 <= i < |ins| && l == Listener(ins[i], events[n], Handler(c + n * |ins| + i, ValidateField));
        assert l == Listener(ins[i], events[n], Handler(c + n * |ins| + i, ValidateField));
      }
    }
  }

  /**
    `_bindListeners` registers exactly one listener per input and input event,
    in loop order the k-th event's i-th input with the (c + k·|ins| + i)-th handler, and exactly one submit listener on the form, with the last handler.
   */
  lemma FreshBindingMembers(form: Form, ins: seq<InputField>, c: nat, l: Listener)
    ensures l in FreshBinding(form, ins, c) <==>
            (exists i, k | 0 <= i < |ins| && 0 <= k < |INPUT_EVENTS| ::
               l == Listener(ins[i], INPUT_EVENTS[k], Handler(c + k * |ins| + i, ValidateField)))
            || l == Listener(form, "submit", Handler(c + 3 * |ins|, SubmitForm))
  {
    FreshOnEventsMembers(ins, INPUT_EVENTS, c, l);
  }

  /** What `attach` throws. */
  datatype AttachError = FormNotFound(selector: string) | NoInputFields(selector: string)

  /** The thrown error's message, for an instance whose constructor is `FormValidator`. */
  function ErrorMessage(e: AttachError): (m: string)
    ensures ErrorPrefix(e.selector) <= m
    ensures m[|ErrorPrefix(e.selector)|..] == if e.FormNotFound? then "not found" else "has no input fields"
  {
    match e
    case FormNotFound(s) => "FormValidator: Form \"" + s + "\" not found"
    case NoInputFields(s) => "FormValidator: Form \"" + s + "\" has no input fields"
  }

  /** The part of both messages before the reason: the class name and the quoted selector. */
  function ErrorPrefix(selector: string): string {
    "FormValidator: Form \"" + selector + "\" "
  }

  /** The two errors of the same selector have different messages. */
  lemma ErrorMessagesDiffer(selector: string)
    ensures ErrorMessage(FormNotFound(selector)) != ErrorMessage(NoInputFields(selector))
  {
    var n := |ErrorPrefix(selector)|;
    assert |ErrorMessage(FormNotFound(selector))| == n + 9;
    assert |ErrorMessage(NoInputFields(selector))| == n + 19;
  }

  /** The data handler a caller registers, known by its identity. */
  datatype Callback = Callback(id: nat)

  /** One call of the data handler with the collected data. */
  datatype Call = Call(callback: Callback, data: map<string, string>)

  /** The rule loop of `_validate`: the message of the last rule `value` does not match. */
  method FindError(rules: seq<Rule>, value: string) returns (err: Option<string>)
    ensures err == LastFailure(rules, value)
  {
    err := None;
    for i := 0 to |rules|
      invariant err == LastFailure(rules[..i], value)
    {
      assert rules[..i + 1][..i] == rules[..i];
      if !Matches(rules[i].exp, value) {
        err := Some(rules[i].err);
      }
    }
    assert rules[..|rules|] == rules;
  }

  class FormValidator {
    const rules: RuleMap
    var form: Form?
    var inputs: Option<seq<InputField>>
    var dataHandler: Option<Callback>

    /** The form and its inputs are bound together or not at all, and a bound form has inputs. */
    ghost predicate Valid()
      reads this
    {
      && (form == null <==> inputs == None)
      && (form != null ==> inputs == Some(form.inputs) && |form.inputs| > 0)
    }

    /** Stores the caller's rules, detached and without a data handler. */
    constructor (rules: RuleMap)
      ensures Valid()
      ensures this.rules == rules && form == null && inputs == None && dataHandler == None
    {
      this.rules := rules;
      form := null;
      inputs := None;
      dataHandler := None;
    }

    /**
      `attach(root, selector)`, where `found` is `root.querySelector(selector)`.
      Fails, leaving the binding and the listeners as they were, when no form
      was found or the form has no inputs; otherwise binds the form and its
      inputs and registers the listeners. A previous binding is overwritten
      and its listeners stay registered.
     */
    method Attach(found: Form?, selector: string, registry: EventRegistry) returns (error: Option<AttachError>)
      requires Valid() && registry.Valid()
      modifies this, registry
      ensures Valid() && registry.Valid() && dataHandler == old(dataHandler)
      ensures found == null ==> error == Some(FormNotFound(selector))
      ensures found != null && found.inputs == [] ==> error == Some(NoInputFields(selector))
      ensures error.Some? ==> form == old(form) && inputs == old(inputs)
      ensures error.Some? ==> registry.listeners == old(registry.listeners) && registry.created == old(registry.created)
      ensures error == None <==> found != null && found.inputs != []
      ensures error == None ==> form == found && inputs == Some(found.inputs)
      ensures error == None ==> GrewFor(registry.listeners, old(registry.listeners), old(registry.created), found, found.inputs)
      ensures error == None ==> forall i, k | 0 <= i < |found.inputs| && 0 <= k < |INPUT_EVENTS| ::
                                  Listening(registry.listeners, found.inputs[i], INPUT_EVENTS[k], ValidateField, old(registry.created))
      ensures error == None ==> Listening(registry.listeners, found, "submit", SubmitForm, old(registry.created))
      ensures error == None ==> registry.listeners == old(registry.listeners) + FreshBinding(found, found.inputs, old(registry.created))
      ensures error == None ==> registry.created == old(registry.created) + 3 * |found.inputs| + 1
    {
      if found == null {
        return Some(FormNotFound(selector));
      }
      if |found.inputs| == 0 {
        return Some(NoInputFields(selector));
      }
      form := found;
      inputs := Some(found.inputs);
      BindListeners(registry);
      error := None;
    }

    /** `detach()`: unbinds the form and its inputs. The listeners are NOT removed (see `UnbindListeners`). */
    method Detach(registry: EventRegistry)
      requires Valid() && registry.Valid()
      modifies this, registry
      ensures Valid() && registry.Valid()
      ensures form == null && inputs == None && dataHandler == old(dataHandler)
      ensures registry.listeners == old(registry.listeners)
      ensures old(form) == null ==> registry.created == old(registry.created)
      ensures old(registry.created) <= registry.created
    {
      UnbindListeners(registry);
      form := null;
      inputs := None;
    }

    /** `setDataHandler(callback)`: the handler the next successful submit calls. */
    method SetDataHandler(callback: Option<Callback>)
      modifies this`dataHandler
      ensures dataHandler == callback
    {
      dataHandler := callback;
    }

    /**
      `_handle()`: when bound and a handler is set, one call of the handler
      with each input's current value under its name; otherwise no call.
     */
    method Handle() returns (call: Option<Call>)
      requires Valid()
      ensures call.Some? <==> inputs.Some? && dataHandler.Some?
      ensures call.Some? ==> call.value == Call(dataHandler.value, Collect(View(inputs.value)))
    {
      var data: map<string, string> := map[];
      if !(inputs.Some? && dataHandler.Some?) {
        return None;
      }
      var ins := inputs.value;
      for i := 0 to |ins|
        invariant data == Collect(View(ins[..i]))
      {
        ViewPrefix(ins[..i + 1], i);
        assert ins[..i + 1][..i] == ins[..i];
        data := data[ins[i].name := ins[i].value];
      }
      assert ins[..|ins|] == ins;
      return Some(Call(dataHandler.value, data));
    }

    /**
      `_bindListeners()`: when bound, a new `_validate` handler on every input
      for every input event, then a new `_submitHandler` handler on the form.
     */
    method BindListeners(registry: EventRegistry)
      requires Valid() && registry.Valid()
      modifies registry
      ensures registry.Valid() && old(registry.created) <= registry.created
      ensures form == null ==> registry.listeners == old(registry.listeners) && registry.created == old(registry.created)
      ensures form != null ==> GrewFor(registry.listeners, old(registry.listeners), old(registry.created), form, form.inputs)
      ensures form != null ==> forall i, k | 0 <= i < |form.inputs| && 0 <= k < |INPUT_EVENTS| ::
                                 Listening(registry.listeners, form.inputs[i], INPUT_EVENTS[k], ValidateField, old(registry.created))
      ensures form != null ==> Listening(registry.listeners, form, "submit", SubmitForm, old(registry.created))
      ensures form != null ==> registry.listeners == old(registry.listeners) + FreshBinding(form, form.inputs, old(registry.created))
      ensures form != null ==> registry.created == old(registry.created) + 3 * |form.inputs| + 1
    {
      if form == null {
        return;
      }
      var ins := inputs.value;
      ListenOnEvents(registry, ins);
      var h := registry.Bind(SubmitForm);
      registry.AddEventListener(form, "submit", h);
      assert FreshBinding(form, ins, old(registry.created)) ==
             FreshOnEvents(ins, INPUT_EVENTS, old(registry.created)) + {Listener(form, "submit", h)};
      FreshBindingGrew(old(registry.listeners), form, ins, old(registry.created));
    }

    /**
      `_unbindListeners()`: when bound, removes a new `_validate` handler from
      every input for every input event and a new `_submitHandler` handler from
      the form. Every handler it removes was made just before, so none of them
      is registered and the listener table is unchanged.
     */
    method UnbindListeners(registry: EventRegistry)
      requires Valid() && registry.Valid()
      modifies registry
      ensures registry.Valid()
      ensures registry.listeners == old(registry.listeners)
      ensures form == null ==> registry.created == old(registry.created)
      ensures old(registry.created) <= registry.created
    {
      if form == null {
        return;
      }
      var ins := inputs.value;
      for e := 0 to |INPUT_EVENTS|
        invariant registry.Valid() && registry.listeners == old(registry.listeners)
        invariant old(registry.created) <= registry.created
      {
        for i := 0 to |ins|
          invariant registry.Valid() && registry.listeners == old(registry.listeners)
          invariant old(registry.created) <= registry.created
        {
          var h := registry.Bind(ValidateField);
          assert Listener(ins[i], INPUT_EVENTS[e], h) !in registry.listeners;
          registry.RemoveEventListener(ins[i], INPUT_EVENTS[e], h);
        }
      }
      var h := registry.Bind(SubmitForm);
      assert Listener(form, "submit", h) !in registry.listeners;
      registry.RemoveEventListener(form, "submit", h);
    }

    /**
      `_validate({target: input})`: passes a field without rules untouched;
      otherwise evaluates all of its rules and updates the input's error
      display, if it has one, as `DisplayAfter` says.
     */
    method Validate(input: InputField) returns (ok: bool)
      modifies DisplayOf(input)
      ensures ok <==> FieldError(rules, input.name, input.value) == None
      ensures input.display.Some? ==>
                input.display.value.State() == DisplayAfter(rules, input.name, input.value, old(input.display.value.State()))
    {
      if input.name !in rules {
        return true;
      }
      var errorField := input.display;
      var err := FindError(rules[input.name], input.value);
      if err.Some? && err.value != "" {
        if errorField.Some? {
          errorField.value.text := err.value;
          errorField.value.hidden := false;
        }
        return false;
      }
      if errorField.Some? {
        errorField.value.hidden := true;
      }
      return true;
    }

    /**
      `_submitHandler(event)`: when bound, validates every input in order
      (each one, whatever the earlier ones gave) and calls the data handler
      once when all of them pass; when detached, does nothing.
     */
    method Submit() returns (call: Option<Call>)
      requires Valid()
      modifies if inputs.Some? then Displays(inputs.value) else {}
      ensures inputs == None ==> call == None
      ensures inputs.Some? ==> (call.Some? <==> AllPass(rules, View(inputs.value)) && dataHandler.Some?)
      ensures call.Some? ==> call.value == Call(dataHandler.value, Collect(View(inputs.value)))
      ensures inputs.Some? ==> forall d | d in Displays(inputs.value) ::
                                 d.State() == Replay(rules, View(inputs.value), d, old(d.State()))
    {
      if inputs == None {
        return None;
      }
      var isValid := ValidateAll(inputs.value);
      if !isValid {
        return None;
      }
      call := Handle();
    }

    /**
      The loop of `_submitHandler`: validates every input of `ins` in order,
      with no short cut, and tells whether all of them passed.
     */
    method ValidateAll(ins: seq<InputField>) returns (isValid: bool)
      modifies Displays(ins)
      ensures isValid <==> AllPass(rules, View(ins))
      ensures forall d | d in Displays(ins) :: d.State() == Replay(rules, View(ins), d, old(d.State()))
    {
      ghost var fields := View(ins);
      isValid := true;
      for i := 0 to |ins|
        invariant View(ins) == fields
        invariant isValid <==> AllPass(rules, fields[..i])
        invariant forall d | d in Displays(ins) :: d.State() == Replay(rules, fields[..i], d, old(d.State()))
      {
        AllPassStep(rules, fields, i);
        label before:
        var ok := ValidateNext(ins, i, fields);
        if !ok {
          isValid := false;
        }
        forall d | d in Displays(ins)
          ensures d.State() == Replay(rules, fields[..i + 1], d, old(d.State()))
        {
          ReplayStep(rules, fields, i, d, old(d.State()));
        }
      }
      assert fields[..|ins|] == fields;
    }

    /** One step of the loop of `_submitHandler`: `Validate(ins[i])`, seen from all displays of `ins`. */
    method ValidateNext(ins: seq<InputField>, i: nat, ghost fields: seq<Field<ErrorDisplay>>) returns (ok: bool)
      requires i < |ins| && View(ins) == fields
      modifies DisplayOf(ins[i])
      ensures View(ins) == fields
      ensures ok <==> FieldError(rules, fields[i].name, fields[i].value) == None
      ensures forall d | d in Displays(ins) ::
                d.State() == if fields[i].display == Some(d) then DisplayAfter(rules, fields[i].name, fields[i].value, old(d.State()))
                             else old(d.State())
    {
      assert fields[i] == ins[i].Snapshot();
      ok := Validate(ins[i]);
    }
  }

  /** The loop of `_bindListeners` over the input events: a new `_validate` handler on every input for each. */
  method ListenOnEvents(registry: EventRegistry, ins: seq<InputField>)
    requires registry.Valid()
    modifies registry
    ensures registry.Valid()
    ensures registry.listeners == old(registry.listeners) + FreshOnEvents(ins, INPUT_EVENTS, old(registry.created))
    ensures registry.created == old(registry.created) + 3 * |ins|
  {
    ghost var c := registry.created;
    for e := 0 to |INPUT_EVENTS|
      invariant registry.Valid()
      invariant registry.listeners == old(registry.listeners) + FreshOnEvents(ins, INPUT_EVENTS[..e], c)
      invariant registry.created == c + e * |ins|
    {
      FreshOnEventsStep(ins, e, c);
      ListenOnInputs(registry, ins, INPUT_EVENTS[e]);
    }
    assert INPUT_EVENTS[..|INPUT_EVENTS|] == INPUT_EVENTS;
  }

  /** The inner loop of `_bindListeners`: a new `_validate` handler on every input for `event`. */
  method ListenOnInputs(registry: EventRegistry, ins: seq<InputField>, event: string)
    requires registry.Valid()
    modifies registry
    ensures registry.Valid()
    ensures registry.listeners == old(registry.listeners) + FreshOnInputs(ins, event, old(registry.created))
    ensures registry.created == old(registry.created) + |ins|
  {
    for i := 0 to |ins|
      invariant registry.Valid()
      invariant registry.listeners == old(registry.listeners) + FreshOnInputs(ins[..i], event, old(registry.created))
      invariant registry.created == old(registry.created) + i
    {
      assert ins[..i + 1][..i] == ins[..i];
      var h := registry.Bind(ValidateField);
      registry.AddEventListener(ins[i], event, h);
    }
    assert ins[..|ins|] == ins;
  }

  /** A fresh binding added to `before` grows it as `GrewFor` says, and every input and the form listen. */
  lemma FreshBindingGrew(before: set<Listener>, form: Form, ins: seq<InputField>, c: nat)
    ensures GrewFor(before + FreshBinding(form, ins, c), before, c, form, ins)
    ensures forall i, k | 0 <= i < |ins| && 0 <= k < |INPUT_EVENTS| ::
              Listening(before + FreshBinding(form, ins, c), ins[i], INPUT_EVENTS[k], ValidateField, c)
    ensures Listening(before + FreshBinding(form, ins, c), form, "submit", SubmitForm, c)
  {
    var ls := before + FreshBinding(form, ins, c);
    forall l | l in ls - before
      ensures c <= l.handler.id
      ensures (exists i, k | 0 <= i < |ins| && 0 <= k < |INPUT_EVENTS| ::
                 l == Listener(ins[i], INPUT_EVENTS[k], l.handler) && l.handler.action == ValidateField)
              || (l.target == form && l.event == "submit" && l.handler.action == SubmitForm)
    {
      FreshBindingMembers(form, ins, c, l);
      if l != Listener(form, "submit", Handler(c + 3 * |ins|, SubmitForm)) {
        var i, k :| 0 <= i < |ins| && 0 <= k < |INPUT_EVENTS| &&
                    l == Listener(ins[i], INPUT_EVENTS[k], Handler(c + k * |ins| + i, ValidateField));
        assert 0 <= k * |ins|;
        assert l == Listener(ins[i], INPUT_EVENTS[k], l.handler);
      }
    }
    forall i, k | 0 <= i < |ins| && 0 <= k < |INPUT_EVENTS|
      ensures Listening(ls, ins[i], INPUT_EVENTS[k], ValidateField, c)
    {
      var l := Listener(ins[i], INPUT_EVENTS[k], Handler(c + k * |ins| + i, ValidateField));
      FreshBindingMembers(form, ins, c, l);
      assert 0 <= k * |ins|;
      assert l in ls;
    }
    var sl := Listener(form, "submit", Handler(c + 3 * |ins|, SubmitForm));
    FreshBindingMembers(form, ins, c, sl);
    assert sl in ls;
  }

  lemma ListeningMono(ls: set<Listener>, ls': set<Listener>, target: object, event: string, action: Action, from: nat)
    requires ls <= ls' && Listening(ls, target, event, action, from)
    ensures Listening(ls', target, event, action, from)
  {
    var l :| l in ls && l.target == target && l.event == event && l.handler.action == action && from <= l.handler.id;
    assert l in ls';
  }

}
