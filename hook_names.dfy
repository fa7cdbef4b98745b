/** Names of the server-side hooks (hook/HookNames.cs). */
module HookNames {

  /** A C# enum: any int can be stored, three values are declared. */
  newtype HookName = int

  const HookPreReceive: HookName := 0
  const HookUpdate: HookName := 1
  const HookPostReceive: HookName := 2

  predicate IsDeclared(h: HookName) {
    HookPreReceive <= h <= HookPostReceive
  }

  /** ToTypeString: the hook's file name; "" exactly for undeclared values. */
  function ToTypeString(h: HookName): (s: string)
    ensures h == HookPreReceive ==> s == "pre-receive"
    ensures h == HookUpdate ==> s == "update"
    ensures h == HookPostReceive ==> s == "post-receive"
    ensures s == "" <==> !IsDeclared(h)
  {
    if h == HookPreReceive then "pre-receive"
    else if h == HookUpdate then "update"
    else if h == HookPostReceive then "post-receive"
    else ""
  }

  /** Different declared hooks have different names. */
  lemma ToTypeStringInjective(a: HookName, b: HookName)
    requires IsDeclared(a) && IsDeclared(b) && a != b
    ensures ToTypeString(a) != ToTypeString(b)
  {
  }
}
