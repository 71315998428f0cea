/** The `Callbacks` table: named hooks run with a validation result. */
module Callbacks {
  import opened Values

  datatype Callback = UpdateIsDope

  function Name(cb: Callback): string {
    match cb
    case UpdateIsDope => "updateIsDope"
  }

  /** `Callbacks[name]`, or `None` when there is no such hook (calling it
      is then a TypeError). */
  function CallbackNamed(name: string): (r: Option<Callback>)
    ensures r.Some? <==> name == "updateIsDope"
    ensures r.Some? ==> Name(r.value) == name
  {
    if name == "updateIsDope" then Some(UpdateIsDope) else None
  }

  /** The `App` property a hook writes. */
  function Property(cb: Callback): string {
    match cb
    case UpdateIsDope => "isDope"
  }

  /** The value `updateIsDope` stores: "yes" exactly when validation passed,
      otherwise "no". */
  function DopeValue(didPass: bool): (v: string)
    ensures v == "yes" <==> didPass
    ensures v == "no" <==> !didPass
  {
    if didPass then "yes" else "no"
  }
}
