/**
 * The tabs kit: a `Tabs` root that holds the selected value (controlled by the parent or kept
 * internally), triggers that select a value, and panels that show only for the selected value.
 */
module Tabs {
  import opened Base

  const OutsideProviderMessage: string := "Tabs components must be used within a Tabs provider"

  /** What the root shares with its triggers and panels. */
  datatype TabsContext = TabsContext(value: string)

  /** `useTabsContext`: the shared context, or the error thrown when a part is used outside a root. */
  function UseTabsContext(context: Option<TabsContext>): (r: Result<TabsContext, string>)
    ensures context.None? <==> r == Err(OutsideProviderMessage)
    ensures context.Some? ==> r == Ok(context.value)
  {
    match context
    case None => Err(OutsideProviderMessage)
    case Some(c) => Ok(c)
  }

  /** The starting internal value: the default value, or the empty string when there is none. */
  function InitialValue(defaultValue: Option<string>): (r: string)
    ensures defaultValue.Some? ==> r == defaultValue.value
    ensures defaultValue.None? ==> r == ""
  {
    if defaultValue.Some? && defaultValue.value != "" then defaultValue.value else ""
  }

  /** `TabsTrigger`'s `aria-selected`: its value is the shared value. */
  function TriggerSelected(context: Option<TabsContext>, value: string): (r: Result<bool, string>)
    ensures context.None? ==> r == Err(OutsideProviderMessage)
    ensures context.Some? ==> (r == Ok(true) <==> context.value.value == value)
    ensures context.Some? ==> r.Ok?
  {
    match UseTabsContext(context)
    case Err(e) => Err(e)
    case Ok(c) => Ok(c.value == value)
  }

  /** `TabsContent`: the panel renders only for the shared value (otherwise it renders nothing). */
  function ContentVisible(context: Option<TabsContext>, value: string): (r: Result<bool, string>)
    ensures context.None? ==> r == Err(OutsideProviderMessage)
    ensures context.Some? ==> (r == Ok(true) <==> context.value.value == value)
    ensures context.Some? ==> r.Ok?
  {
    match UseTabsContext(context)
    case Err(e) => Err(e)
    case Ok(c) => if c.value != value then Ok(false) else Ok(true)
  }

  /** Among panels with distinct values, exactly the one for the shared value is shown, if there is one. */
  lemma OnePanelVisible(c: TabsContext, panels: seq<string>)
    requires forall i, j :: 0 <= i < j < |panels| ==> panels[i] != panels[j]
    ensures forall i, j :: (0 <= i < |panels| && 0 <= j < |panels|
      && ContentVisible(Some(c), panels[i]) == Ok(true) && ContentVisible(Some(c), panels[j]) == Ok(true)) ==> i == j
    ensures (exists i :: 0 <= i < |panels| && panels[i] == c.value) <==>
      (exists i :: 0 <= i < |panels| && ContentVisible(Some(c), panels[i]) == Ok(true))
  {
  }

  /** A trigger is marked selected exactly when its panel is shown. */
  lemma TriggerMatchesContent(context: Option<TabsContext>, value: string)
    ensures TriggerSelected(context, value) == ContentVisible(context, value)
  {
  }

  /** The root's state. */
  class TabsRoot {
    /** The `value` prop; `None` when the parent leaves the selection to the root. */
    var controlledValue: Option<string>
    var internalValue: string

    constructor(controlledValue: Option<string>, defaultValue: Option<string>)
      ensures this.controlledValue == controlledValue && internalValue == InitialValue(defaultValue)
      ensures Value() == (if controlledValue.Some? then controlledValue.value else InitialValue(defaultValue))
    {
      this.controlledValue := controlledValue;
      internalValue := InitialValue(defaultValue);
    }

    /** The selected value: the controlled value when one is given, otherwise the internal one. */
    function Value(): (r: string)
      reads this
      ensures controlledValue.Some? ==> r == controlledValue.value
      ensures controlledValue.None? ==> r == internalValue
    {
      match controlledValue
      case Some(v) => v
      case None => internalValue
    }

    /** The context handed to triggers and panels. */
    function Context(): (r: TabsContext)
      reads this
      ensures r.value == Value()
    {
      TabsContext(Value())
    }

    /**
     * `handleValueChange`, which a trigger's click calls with its own value: the internal value
     * follows only when uncontrolled; the new value is always reported to the listener, if any.
     */
    method HandleValueChange(newValue: string, hasListener: bool) returns (reported: Option<string>)
      modifies this`internalValue
      ensures controlledValue.None? ==> internalValue == newValue && Value() == newValue
      ensures controlledValue.Some? ==> internalValue == old(internalValue) && Value() == old(Value())
      ensures reported == if hasListener then Some(newValue) else None
    {
      if controlledValue.None? {
        internalValue := newValue;
      }
      reported := if hasListener then Some(newValue) else None;
    }

    /** The parent re-renders with a new `value` prop (or drops it). */
    method SetControlledValue(v: Option<string>)
      modifies this`controlledValue
      ensures controlledValue == v && internalValue == old(internalValue)
    {
      controlledValue := v;
    }
  }

  /** In an uncontrolled root, clicking a trigger selects it and shows its panel. */
  method ClickTrigger(root: TabsRoot, value: string, hasListener: bool) returns (reported: Option<string>)
    requires root.controlledValue.None?
    modifies root`internalValue
    ensures TriggerSelected(Some(root.Context()), value) == Ok(true)
    ensures ContentVisible(Some(root.Context()), value) == Ok(true)
    ensures reported == if hasListener then Some(value) else None
  {
    reported := root.HandleValueChange(value, hasListener);
  }
}
