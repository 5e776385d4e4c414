/** A boundary-condition or model dictionary, reduced to the entries the
    core reads: scalar entries and on/off switches. */
module Dictionaries {

  datatype Dict = Dict(scalars: map<string, real>, switches: map<string, bool>)

  /** `dict.lookupOrDefault<scalar>(key, default)`. */
  function LookupOrDefault(d: Dict, key: string, default: real): (v: real)
    ensures key in d.scalars ==> v == d.scalars[key]
    ensures key !in d.scalars ==> v == default
  {
    if key in d.scalars then d.scalars[key] else default
  }

  /** `dict.lookupOrDefault<bool>(key, default)`. */
  function SwitchOrDefault(d: Dict, key: string, default: bool): (b: bool)
    ensures key in d.switches ==> b == d.switches[key]
    ensures key !in d.switches ==> b == default
  {
    if key in d.switches then d.switches[key] else default
  }
}
