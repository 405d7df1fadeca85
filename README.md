# remoteconfig — default-value updater, modelled in Dafny

The Go package `remoteconfig` wraps the Firebase Remote Config admin API.
It has one job: `Client.SetDefaultValues(ctx, keyvals...)` overwrites default
values in a project's published remote config template. It fetches the
template, writes each `key, value` pair of the flat `keyvals` list into the
template's parameter map, and publishes the template again with an
`If-Match` header carrying the `ETag` of the fetch. That way the service
refuses the update if someone else changed the template in between.

The doc comment at firebase.go:35-37 speaks of updating default key/value
pairs. The code at firebase.go:50-54 replaces the whole parameter with one
that has only a default value, so the parameter's conditional values and
description are lost. `MergedAtLastPair` states this.

The model has three modules:

- `FirebaseRemoteConfig` (`rc.dfy`) holds the API types that the updater
  touches. `Parameter`, `ParameterValue` and `Condition` are values. The
  Go map of parameters is a class, `ParameterMap`, because every holder of a
  Go map shares one table. `RemoteConfig` is a class whose `parameters` may
  be `null`, which stands for Go's nil map.
- `DefaultsMerge` (`merge.dfy`) holds `Merged`, the specification of the
  pair merge: complete pairs are applied in order, and each one replaces the
  named parameter with one that has only a default value. It also holds the
  lemmas about `Merged`.
- `RemoteConfig` (`remoteconfig.dfy`) holds `Client.SetDefaultValues`. It is
  a method with the source's two-index loop (`i, j` stepping by 2). The
  loop mutates the fetched parameter map through the update document that
  aliases it. The method is proved to leave that map equal to `Merged` of
  its old contents. The two remote calls are abstracted:
  - the read's outcome (an error, or the template and its `ETag` value) is
    a parameter;
  - the update request is returned;
  - the service's answer to the update is a parameter.

## Model

| member | source | states |
|---|---|---|
| `RemoteConfig.Client.SetDefaultValues` | firebase.go:38-63 | A failed read returns that error and sends no update. Otherwise exactly one update is sent. It goes to `projects/<projectID>`, carries the fetched `ETag` as `If-Match`, and has a fresh body. The body has the fetched conditions and the fetched parameter map itself (aliased, not copied). That map ends as `Merged` of its old contents with `keyvals`, and it is unchanged when `keyvals` has fewer than two elements. The result is the write's error, or nil. |
| `RemoteConfig.Client.constructor` | firebase.go:14-18 | A client is bound to the project it was created for. |
| `FirebaseRemoteConfig.RemoteConfig.constructor` | firebase.go:44-47 | The update document takes the given conditions and the very parameter map given, not a copy. |
| `DefaultsMerge.Merged` | firebase.go:49-55 | The keys after the merge are exactly the fetched keys plus every key that a complete pair names: every named key is inserted and none is removed. |
| `DefaultsMerge.MergeAppend` | firebase.go:49-55 | Pairs apply in order: merging `front + back` (with `front` of even length) equals merging `front` and then `back` into the result. |
| `DefaultsMerge.MergeDropsUnpairedKey` | firebase.go:49 | With an odd number of elements, the last key has no value and is ignored. The merge equals the merge without it. |
| `DefaultsMerge.MergedAtLastPair` | firebase.go:49-55 | The last complete pair naming a key decides that key. The key is present, its default value is that pair's value, and it has no conditional values and no description, whatever it held before. So later pairs win, and a replaced parameter loses its other fields. |
| `DefaultsMerge.MergedAtUnnamedKey` | firebase.go:46-55 | A key that no complete pair names is present after the merge exactly when it was present before, with the same parameter. |
| `DefaultsMerge.MergeFrame` | firebase.go:46-55 | Outside the named keys the merged map equals the fetched one: nothing else in the map changes. |
| `DefaultsMerge.MergeForgetsNamedKeys` | firebase.go:50-54 | Two parameter maps that agree outside the named keys merge to the same map: a named key's previous parameter has no influence on the result. |
| `DefaultsMerge.MergeIdempotent` | firebase.go:49-55 | Applying the same pairs twice gives the same parameters as applying them once. |

## Left out

- `NewClient` (firebase.go:20-33): it only calls the API client library's constructor and panics on error. The client here is built from a project ID alone.
- The API client library, the HTTP transport, authentication and the OAuth scope (firebase.go:12), and the `context` deadline and cancellation. The read and the write are not performed: their outcomes are parameters of `SetDefaultValues`.
- The resource name of the read (`projects/<projectID>`, firebase.go:39). The read is an input, so the model does not record which name was fetched.
- The compare-and-swap on the `ETag`. The remote service enforces it. The model records only the `If-Match` value that is sent.
- The `ETag` header lookup (firebase.go:58). The read outcome carries the header's value directly, as the empty string when it is absent.
- Fields of the fetched template other than its conditions and parameters, such as its version. The struct literal at firebase.go:44-47 builds the update from `Conditions` and `Parameters` only, so such fields are left out of the write. The model's template has only these two fields. The response metadata is left out as well.
- `RemoteConfig.Client.SetDefaultValues`: when the fetched template has a nil parameter map and `keyvals` holds at least one complete pair, the Go assignment panics. The model rules this case out with a precondition instead of modelling the panic.
- cmd/rc/main.go: it is the command-line entry point. This covers flag parsing, the `SERVICE_ACCOUNT_KEY` environment lookup, base64 and JSON decoding, and the exits. Its call at main.go:51 passes a `map[string]string` where `SetDefaultValues` takes `...string`, and no conversion from a map to pairs exists. The model follows the variadic signature in firebase.go.
- Parsing of positional `key=value` arguments: no such code exists in the source.
