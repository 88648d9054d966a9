/** Clients of the validator, written against the contracts of `Validator` and `FixedValidator`. */
module Clients {
  import opened Wrappers
  import opened Validator
  import FixedValidator

  /**
    After `attach` and `detach`, the listeners that `attach` registered are all
    still registered, so the table has grown.
   */
  method DetachLeavesListeners(v: FormValidator, found: Form, registry: EventRegistry)
    requires v.Valid() && registry.Valid() && found.inputs != []
    modifies v, registry
    ensures v.form == null && v.inputs == None
    ensures forall i, k | 0 <= i < |found.inputs| && 0 <= k < |INPUT_EVENTS| ::
              Listening(registry.listeners, found.inputs[i], INPUT_EVENTS[k], ValidateField, old(registry.created))
    ensures Listening(registry.listeners, found, "submit", SubmitForm, old(registry.created))
    ensures old(registry.listeners) <= registry.listeners && registry.listeners != old(registry.listeners)
  {
    var err := v.Attach(found, "#form", registry);
    v.Detach(registry);
    ghost var l :| l in registry.listeners && l.target == found && l.event == "submit" && l.handler.action == SubmitForm
             && old(registry.created) <= l.handler.id;
    assert l !in old(registry.listeners);
  }

  /**
    Attaching to a second form leaves the first form's submit listener
    registered while the validator refers only to the second form, so no
    later `detach` can reach it.
   */
  method ReattachLeaksListeners(v: FormValidator, first: Form, second: Form, registry: EventRegistry)
    requires v.Valid() && registry.Valid() && first.inputs != [] && second.inputs != []
    modifies v, registry
    ensures v.form == second && v.inputs == Some(second.inputs)
    ensures Listening(registry.listeners, first, "submit", SubmitForm, old(registry.created))
  {
    var err := v.Attach(first, "#first", registry);
    ghost var ls := registry.listeners;
    err := v.Attach(second, "#second", registry);
    ListeningMono(ls, registry.listeners, first, "submit", SubmitForm, old(registry.created));
  }

  /** With the corrected validator, `detach` after `attach` gives back the listener table as it was. */
  method AttachDetachRestores(v: FixedValidator.FormValidator, found: Form?, selector: string, registry: EventRegistry)
    requires v.Valid() && v.form == null && registry.Valid()
    modifies v, registry
    ensures registry.listeners == old(registry.listeners)
  {
    var err := v.Attach(found, selector, registry);
    ghost var added := v.Registered();
    v.Detach(registry);
    if err == None {
      FixedValidator.FreshRemoved(old(registry.listeners), added, old(registry.created));
    }
  }

  /** With the corrected validator, attaching twice and detaching once leaves no listener behind. */
  method ReattachDetachRestores(v: FixedValidator.FormValidator, first: Form, second: Form, registry: EventRegistry)
    requires v.Valid() && v.form == null && registry.Valid()
    requires first.inputs != [] && second.inputs != []
    modifies v, registry
    ensures registry.listeners == old(registry.listeners)
  {
    var err := v.Attach(first, "#first", registry);
    FixedValidator.FreshRemoved(old(registry.listeners), v.Registered(), old(registry.created));
    err := v.Attach(second, "#second", registry);
    ghost var added := v.Registered();
    v.Detach(registry);
    FixedValidator.FreshRemoved(old(registry.listeners), added, old(registry.created));
  }
}
