/**
  The listener management of `FormValidator` as evidently intended: the
  `_validate` and `_submitHandler` functions are bound once per attachment and
  kept, so that `detach` removes exactly the listeners `attach` registered,
  and an `attach` on a validator that is already attached first releases the
  previous binding. Validation and submission are those of `Validator`.
 */
module FixedValidator {
  import opened Wrappers
  import opened FieldRules
  import opened Validator

  /** The listeners for `event` on each input of `ins`, all with handler `h`. */
  ghost function OnInputs(ins: seq<InputField>, event: string, h: Handler): set<Listener>
  {
    if ins == [] then {} else OnInputs(ins[..|ins| - 1], event, h) + {Listener(ins[|ins| - 1], event, h)}
  }

  /** The listeners for each event of `events` on each input of `ins`, all with handler `h`. */
  ghost function OnEvents(ins: seq<InputField>, events: seq<string>, h: Handler): set<Listener>
  {
    if events == [] then {} else OnEvents(ins, events[..|events| - 1], h) + OnInputs(ins, events[|events| - 1], h)
  }

  /** What `_bindListeners` registers for `form` with the bound functions `validate` and `submit`. */
  ghost function Binding(form: Form, validate: Handler, submit: Handler): set<Listener>
  {
    OnEvents(form.inputs, INPUT_EVENTS, validate) + {Listener(form, "submit", submit)}
  }

  lemma {:induction false} OnInputsMembers(ins: seq<InputField>, event: string, h: Handler, l: Listener)
    ensures l in OnInputs(ins, event, h) <==> exists i | 0 <= i < |ins| :: l == Listener(ins[i], event, h)
  {
    if ins != [] {
      var init := ins[..|ins| - 1];
      OnInputsMembers(init, event, h, l);
      assert forall i | 0 <= i < |init| :: init[i] == ins[i];
    }
  }

  lemma {:induction false} OnEventsMembers(ins: seq<InputField>, events: seq<string>, h: Handler, l: Listener)
    ensures l in OnEvents(ins, events, h) <==>
            exists i, k | 0 <= i < |ins| && 0 <= k < |events| :: l == Listener(ins[i], events[k], h)
  {
    if events != [] {
      var init := events[..|events| - 1];
      OnEventsMembers(ins, init, h, l);
      OnInputsMembers(ins, events[|events| - 1], h, l);
      assert forall k | 0 <= k < |init| :: init[k] == events[k];
      if l in OnInputs(ins, events[|events| - 1], h) {
        var i :| 0 <= i < |ins| && l == Listener(ins[i], events[|events| - 1], h);
        assert l == Listener(ins[i], events[|events| - 1], h);
      }
    }
  }

  /**
    The binding of a form is: each input listening on blur, keydown and keyup
    with `validate`, and the form listening on submit with `submit`, and
    nothing else.
   */
  lemma BindingMembers(form: Form, validate: Handler, submit: Handler, l: Listener)
    ensures l in Binding(form, validate, submit) <==>
            (exists i, k | 0 <= i < |form.inputs| && 0 <= k < |INPUT_EVENTS| :: l == Listener(form.inputs[i], INPUT_EVENTS[k], validate))
            || l == Listener(form, "submit", submit)
  {
    OnEventsMembers(form.inputs, INPUT_EVENTS, validate, l);
  }

  /** Every listener of a binding uses one of its two bound functions. */
  lemma BindingHandlers(form: Form, validate: Handler, submit: Handler)
    ensures forall l | l in Binding(form, validate, submit) :: l.handler == validate || l.handler == submit
  {
    forall l | l in Binding(form, validate, submit)
      ensures l.handler == validate || l.handler == submit
    {
      BindingMembers(form, validate, submit, l);
    }
  }

  /** Removing listeners that were all added after `ls` was complete gives back `ls`. */
  lemma FreshRemoved(ls: set<Listener>, added: set<Listener>, c: nat)
    requires forall l | l in ls :: l.handler.id < c
    requires forall l | l in added :: c <= l.handler.id
    ensures (ls + added) - added == ls
  {
    assert ls !! added;
  }

  /** `element.addEventListener(event, h)` for every input of `ins`, in order. */
  method AddOnInputs(registry: EventRegistry, ins: seq<InputField>, event: string, h: Handler)
    requires registry.Valid() && h.id < registry.created
    modifies registry
    ensures registry.Valid() && registry.created == old(registry.created)
    ensures registry.listeners == old(registry.listeners) + OnInputs(ins, event, h)
  {
    for i := 0 to |ins|
      invariant registry.Valid() && registry.created == old(registry.created)
      invariant registry.listeners == old(registry.listeners) + OnInputs(ins[..i], event, h)
    {
      assert ins[..i + 1][..i] == ins[..i];
      registry.AddEventListener(ins[i], event, h);
    }
    assert ins[..|ins|] == ins;
  }

  /** `element.removeEventListener(event, h)` for every input of `ins`, in order. */
  method RemoveOnInputs(registry: EventRegistry, ins: seq<InputField>, event: string, h: Handler)
    requires registry.Valid()
    modifies registry
    ensures registry.Valid() && registry.created == old(registry.created)
    ensures registry.listeners == old(registry.listeners) - OnInputs(ins, event, h)
  {
    for i := 0 to |ins|
      invariant registry.Valid() && registry.created == old(registry.created)
      invariant registry.listeners == old(registry.listeners) - OnInputs(ins[..i], event, h)
    {
      assert ins[..i + 1][..i] == ins[..i];
      registry.RemoveEventListener(ins[i], event, h);
    }
    assert ins[..|ins|] == ins;
  }

  class FormValidator {
    const rules: RuleMap
    var form: Form?
    var inputs: Option<seq<InputField>>
    /** The bound `_validate` and `_submitHandler` of the current attachment. */
    var handlers: Option<(Handler, Handler)>

    ghost predicate Valid()
      reads this
    {
      && (form == null <==> inputs == None)
      && (form == null <==> handlers == None)
      && (form != null ==> inputs == Some(form.inputs) && |form.inputs| > 0)
      && (handlers.Some? ==> handlers.value.0.action == ValidateField && handlers.value.1.action == SubmitForm)
    }

    /** The listeners the current attachment registered. */
    ghost function Registered(): set<Listener>
      requires Valid()
      reads this
    {
      if form == null then {} else Binding(form, handlers.value.0, handlers.value.1)
    }

    constructor (rules: RuleMap)
      ensures Valid() && this.rules == rules && form == null
    {
      this.rules := rules;
      form := null;
      inputs := None;
      handlers := None;
    }

    /**
      `attach(root, selector)`: the error cases change nothing; otherwise a
      previous binding is released, the two functions are bound and kept,
      and their listeners are registered.
     */
    method Attach(found: Form?, selector: string, registry: EventRegistry) returns (error: Option<AttachError>)
      requires Valid() && registry.Valid()
      modifies this, registry
      ensures Valid() && registry.Valid() && old(registry.created) <= registry.created
      ensures found == null ==> error == Some(FormNotFound(selector))
      ensures found != null && found.inputs == [] ==> error == Some(NoInputFields(selector))
      ensures error == None <==> found != null && found.inputs != []
      ensures error.Some? ==> form == old(form) && handlers == old(handlers)
      ensures error.Some? ==> registry.listeners == old(registry.listeners) && registry.created == old(registry.created)
      ensures error == None ==> form == found && inputs == Some(found.inputs)
      ensures error == None ==> registry.listeners == (old(registry.listeners) - old(Registered())) + Registered()
      ensures error == None ==> forall l | l in Registered() :: old(registry.created) <= l.handler.id
    {
      if found == null {
        return Some(FormNotFound(selector));
      }
      if |found.inputs| == 0 {
        return Some(NoInputFields(selector));
      }
      Detach(registry);
      var validate := registry.Bind(ValidateField);
      var submit := registry.Bind(SubmitForm);
      form := found;
      inputs := Some(found.inputs);
      handlers := Some((validate, submit));
      BindListeners(registry);
      BindingHandlers(found, validate, submit);
      error := None;
    }

    /** `detach()`: removes exactly the listeners of the current attachment and unbinds. */
    method Detach(registry: EventRegistry)
      requires Valid() && registry.Valid()
      modifies this, registry
      ensures Valid() && registry.Valid() && registry.created == old(registry.created)
      ensures form == null && inputs == None && handlers == None
      ensures registry.listeners == old(registry.listeners) - old(Registered())
    {
      UnbindListeners(registry);
      form := null;
      inputs := None;
      handlers := None;
    }

    /** `_bindListeners()` with the kept functions. */
    method BindListeners(registry: EventRegistry)
      requires Valid() && registry.Valid()
      requires handlers.Some? ==> handlers.value.0.id < registry.created && handlers.value.1.id < registry.created
      modifies registry
      ensures registry.Valid() && registry.created == old(registry.created)
      ensures registry.listeners == old(registry.listeners) + Registered()
    {
      if form == null {
        return;
      }
      var ins := inputs.value;
      var validate := handlers.value.0;
      for e := 0 to |INPUT_EVENTS|
        invariant registry.Valid() && registry.created == old(registry.created)
        invariant registry.listeners == old(registry.listeners) + OnEvents(ins, INPUT_EVENTS[..e], validate)
      {
        assert INPUT_EVENTS[..e + 1][..e] == INPUT_EVENTS[..e];
        AddOnInputs(registry, ins, INPUT_EVENTS[e], validate);
      }
      assert INPUT_EVENTS[..|INPUT_EVENTS|] == INPUT_EVENTS;
      registry.AddEventListener(form, "submit", handlers.value.1);
    }

    /** `_unbindListeners()` with the kept functions: removes what `BindListeners` added. */
    method UnbindListeners(registry: EventRegistry)
      requires Valid() && registry.Valid()
      modifies registry
      ensures registry.Valid() && registry.created == old(registry.created)
      ensures registry.listeners == old(registry.listeners) - Registered()
    {
      if form == null {
        return;
      }
      var ins := inputs.value;
      var validate := handlers.value.0;
      for e := 0 to |INPUT_EVENTS|
        invariant registry.Valid() && registry.created == old(registry.created)
        invariant registry.listeners == old(registry.listeners) - OnEvents(ins, INPUT_EVENTS[..e], validate)
      {
        assert INPUT_EVENTS[..e + 1][..e] == INPUT_EVENTS[..e];
        RemoveOnInputs(registry, ins, INPUT_EVENTS[e], validate);
      }
      assert INPUT_EVENTS[..|INPUT_EVENTS|] == INPUT_EVENTS;
      registry.RemoveEventListener(form, "submit", handlers.value.1);
    }
  }
}
