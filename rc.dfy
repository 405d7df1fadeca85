/**
 The part of the Firebase Remote Config REST API (version v1) that the
 updater reads and writes: the published template, its conditions and its
 parameters. Values the API copies (structs in the Go client) are
 datatypes; the Go map of parameters, which every holder shares and
 mutates, is an object.
 */
module FirebaseRemoteConfig {

  datatype Option<+T> = None | Some(value: T)

  /** A value a parameter can take: a literal string, or the instruction to
      clients to keep their in-app default. */
  datatype ParameterValue = ParameterValue(value: string, useInAppDefault: bool)

  /** A named targeting rule; the updater never looks inside one. */
  datatype Condition = Condition(name: string, expression: string, tagColor: string, description: string)

  /** One parameter of the template: its default value (absent when the Go
      pointer is nil), the values served under named conditions, and a
      description. */
  datatype Parameter = Parameter(
    defaultValue: Option<ParameterValue>,
    conditionalValues: map<string, ParameterValue>,
    description: string)

  /** The parameter the updater writes for a key: a default value holding
      `value` and no other field set. */
  function DefaultOnly(value: string): (p: Parameter)
  {
    Parameter(Some(ParameterValue(value, false)), map[], "")
  }

  /** A Go `map[string]RemoteConfigParameter`: a reference to one mutable
      table, so an assignment through any holder is seen by all of them. */
  class ParameterMap {
    var entries: map<string, Parameter>
  }

  /** A remote config template. `parameters == null` is Go's nil map, which
      can be read but not written. */
  class RemoteConfig {
    var conditions: seq<Condition>
    var parameters: ParameterMap?

    /** The struct literal `&RemoteConfig{Conditions: …, Parameters: …}`:
        the parameter map is shared with whoever passed it, not copied. */
    constructor (conditions: seq<Condition>, parameters: ParameterMap?)
      ensures this.conditions == conditions
      ensures this.parameters == parameters
    {
      this.conditions := conditions;
      this.parameters := parameters;
    }
  }
}
