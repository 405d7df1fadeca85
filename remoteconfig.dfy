/**
 The updater: a client bound to one Google Cloud project that overwrites
 default values of the project's published remote config template with a
 read, an in-memory merge and one conditional write. The two calls to the
 remote service are not made here: the outcome of the read is an input,
 the update request is an output, and the service's answer to that
 request is an input.
 */
module RemoteConfig {
  import opened FirebaseRemoteConfig
  import opened DefaultsMerge

  /** A Go `error` value; its contents are passed on, never inspected. */
  datatype Error = Error(message: string)

  /** A Go `error` result: nil, or an error. */
  datatype Outcome = Pass | Fail(error: Error)

  /** How the read of the template ended: with an error, or with the
      template and the value of the `ETag` header of the response (the empty
      string when the response carries none). */
  datatype ReadOutcome =
    | ReadFailed(error: Error)
    | Fetched(config: RemoteConfig, etag: string)

  /** The update request: the template's resource name, the template to
      publish, and the value of its `If-Match` header. */
  datatype UpdateCall = UpdateCall(name: string, body: RemoteConfig, ifMatch: string)

  /** The resource name of a project's remote config. */
  function ResourceName(projectID: string): (name: string)
  {
    "projects/" + projectID
  }

  class Client {
    const projectID: string

    constructor (projectID: string)
      ensures this.projectID == projectID
    {
      this.projectID := projectID;
    }

    /** Overwrites the defaults named in `keyvals` (a flat list of key,
        value, key, value, …) in the template that `read` fetched, and
        sends it back on the condition that it is still the version read.
        `write` is the service's answer to that update request; `call` is
        the request sent, if any. A nil parameter map can only be read, so
        a fetched template without one admits no complete pair. */
    method SetDefaultValues(read: ReadOutcome, keyvals: seq<string>, write: Outcome)
      returns (call: Option<UpdateCall>, result: Outcome)
      requires read.Fetched? && |keyvals| >= 2 ==> read.config.parameters != null
      modifies if read.Fetched? && read.config.parameters != null then {read.config.parameters} else {}
      // a failed read is returned as it is, and nothing is written
      ensures read.ReadFailed? ==> call == None && result == Fail(read.error)
      // otherwise exactly one update is sent, conditional on the ETag read
      ensures read.Fetched? ==>
        && call.Some?
        && call.value.name == ResourceName(projectID)
        && call.value.ifMatch == read.etag
        && fresh(call.value.body)
        && call.value.body.conditions == read.config.conditions
        && call.value.body.parameters == read.config.parameters
        && result == write
      // the merge writes through the fetched map, which the update shares
      ensures read.Fetched? && read.config.parameters != null ==>
        read.config.parameters.entries == Merged(old(read.config.parameters.entries), keyvals)
      // with no complete pair the fetched parameters are sent back unchanged
      ensures read.Fetched? && read.config.parameters != null && |keyvals| < 2 ==>
        read.config.parameters.entries == old(read.config.parameters.entries)
    {
      if read.ReadFailed? {
        return None, Fail(read.error);
      }
      var config := read.config;
      var update := new RemoteConfig(config.conditions, config.parameters);
      ghost var fetched := if config.parameters != null then config.parameters.entries else map[];

      var i, j := 0, 1;
      while j < |keyvals|
        invariant j == i + 1 && i % 2 == 0 && i <= |keyvals|
        invariant update.conditions == config.conditions && update.parameters == config.parameters
        invariant update.parameters != null ==> update.parameters.entries == Merged(fetched, keyvals[..i])
        decreases |keyvals| - i
      {
        update.parameters.entries := update.parameters.entries[keyvals[i] := DefaultOnly(keyvals[j])];
        assert keyvals[..i + 2] == keyvals[..i] + [keyvals[i], keyvals[j]];
        MergeAppend(fetched, keyvals[..i], [keyvals[i], keyvals[j]]);
        i, j := i + 2, j + 2;
      }
      if i < |keyvals| {
        MergeDropsUnpairedKey(fetched, keyvals);
      } else {
        assert keyvals[..i] == keyvals;
      }

      call := Some(UpdateCall(ResourceName(projectID), update, read.etag));
      if write.Fail? {
        return call, Fail(write.error);
      }
      return call, Pass;
    }
  }
}
