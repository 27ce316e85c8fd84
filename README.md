# rpcx-ui service registry: a Dafny model of the etcd adapter and the start-up rules

rpcx-ui lists the service instances that rpcx servers register in a
registry backend. It can also switch an instance on or off and can rewrite
its metadata. This project models two parts of it:

- **The etcd adapter** (`service/etcd_service.go`), as the class
  `EtcdService.EtcdRegistry`. Its one field is the key/value store it is
  connected to.
  - An instance lives at the key `<base><name>/<address>`. Its value is a
    URL query string such as `state=inactive&group=blue`.
  - `FetchServices` lists the base path, then lists each key found there.
    It turns every instance key and value into a `Registry.Service` record
    and files the records in a map by ID. This is two nested loops.
  - `toList` flattens that map into a list (`ToList`).
  - `DeactivateService` and `ActivateService` read one instance's value,
    decode it, set `state`, re-encode it and write it back.
  - `UpdateMetadata` writes a value verbatim.
- **The start-up rules** (`service/config.go`), in the module `Config`.
  - `SelectRegistry` is the switch on `registry_type`.
  - `NormalizeBaseUrl` appends `/` to the base path when it is missing.
  - `Boot` gives the exit codes.
  - The class `Config.Process` holds the package state that `LoadConfig`
    fills in.

The parts of the Go standard library these steps use are written out
concretely, so that their properties are proved rather than assumed.
Strings are byte sequences.

- `Strings`: `strings.LastIndex`, `TrimPrefix`, `Split` and `HasSuffix`.
- `Sorting`: Go's byte-wise ordering of strings, and the sorted key list
  that `sort.Strings` and etcd's range queries produce.
- `Base64`: `base64.StdEncoding.EncodeToString`, the encoding of section 4
  of RFC 4648.
- `UrlQuery`: `url.ParseQuery`, and `url.Values` with its `Get`, `Set` and
  `Encode`.

The store is `KvStore.Store`. It holds its entries, plus the keys at which
the backend fails reads and the keys at which it fails writes. `Get`, `List`
and `Put` behave as libkv's `store.Store` does:

- `List` answers every key that starts with the prefix, in key order.
- An empty answer is `ErrKeyNotFound`.

The specification of `FetchServices` is the function
`EtcdService.Registered`. It is the map of records collected from the
listings, in the order the loops visit them. The method's postcondition ties
its result to that function. Lemmas then state what the map holds:

- every record comes from a stored key under the base path;
- every decodable key that can be listed is found;
- a later record with the same ID replaces an earlier one.

The edits are specified the same way, by the functions `Deactivated`,
`Activated` and `UpdatedMetadata`.

Where the code departs from the system's documented behaviour, the model
follows the code:

- The `"n/a"` state (`service/etcd_service.go:63`) is never produced. A
  value that does not decode is skipped before the state is chosen.
- `ActivateService` does not check the error of its `Get`
  (`service/etcd_service.go:116`). When the key is missing or cannot be
  read, it dereferences a nil pair. The model's outcome for that case is
  `Panicked`. `DeactivateService` returns the error instead
  (`MissingKeyDiffers`).
- IDs are not injective in general. `name@address` is ambiguous when a name
  holds `@` (`ServiceIdCollision`). They are injective only for names
  without `@` (`ServiceIdInjective`).
- The etcd v3 store lists by prefix. The inner listings therefore return
  every key below the listed key, at any depth, and the key itself. They do
  not return only its immediate children. A record found twice is filed
  twice under the same ID, which changes nothing.

## Model

| member | source | states |
|---|---|---|
| `Strings.HasSuffix` | service/config.go:41 | `s` ends with `x`: the last `|x|` bytes of `s` are `x`; `Config.NormalizeBaseUrl` states what the base-path test decides |
| `Strings.TrimPrefix` | service/etcd_service.go:52 | the string is the prefix followed by the result when it starts with the prefix, and is returned unchanged otherwise |
| `Strings.LastIndex` | service/etcd_service.go:51 | the result is the last position holding the byte, every later byte differs from it, and -1 exactly when the byte does not occur |
| `Strings.Split` | service/etcd_service.go:54 | there is at least one piece, and no piece holds the separator |
| `Strings.SplitCount` | service/etcd_service.go:55 | a split has more than one piece exactly when the separator occurs |
| `Strings.SplitLast` | service/etcd_service.go:56 | the last piece is exactly what follows the last separator |
| `Strings.JoinSplit` | service/etcd_service.go:54 | joining the pieces with the separator gives the string back |
| `Strings.SplitJoin` | service/etcd_service.go:54 | splitting a join of separator-free pieces gives the pieces back |
| `Sorting.SortedKeys` | service/etcd_service.go:35 | the listing order: strictly increasing, holding exactly the given keys |
| `Base64.Encode` | service/etcd_service.go:72 | four output bytes per started group of three input bytes |
| `Base64.DecodeEncode` | service/etcd_service.go:72 | a decoder recovers every encoding's input, so the encoding loses nothing |
| `Base64.EncodeInjective` | service/etcd_service.go:72 | different byte strings have different encodings |
| `UrlQuery.Get` | service/etcd_service.go:66-70 | the first value listed for the key, or "" when the key is absent or has no values; `UrlQuery.GetSet` and `EtcdService.RecordFields` state its properties |
| `UrlQuery.Set` | service/etcd_service.go:105 | the key mapped to the single value given, every other key kept; `UrlQuery.GetSet` and `UrlQuery.ParseEncodeSet` state its properties |
| `UrlQuery.GetSet` | service/etcd_service.go:105 | after `Set`, `Get` of that key answers the new value, and every other key answers what it did |
| `UrlQuery.QueryEscape` | service/etcd_service.go:106 | an escaped string holds no `&`, `=` or `;`, so it cannot split a query |
| `UrlQuery.ParseQuery` | service/etcd_service.go:58 | splits on `&`, skips empty pieces, fails on a piece holding `;` or a bad escape, and otherwise cuts each piece at its first `=`, unescapes both halves and appends the value to its key (the parse at lines 58, 100 and 118); `UrlQuery.ParsedNoEmptyLists`, `UrlQuery.ParseEncode` and `EtcdService.Record` state its properties |
| `UrlQuery.UnescapeEscape` | service/etcd_service.go:58 | unescaping an escaped string gives it back |
| `UrlQuery.ParsedNoEmptyLists` | service/etcd_service.go:58 | every key a parse produces has at least one value |
| `UrlQuery.Encode` | service/etcd_service.go:106 | every value of every key as an escaped `key=value` pair, keys in sorted order, joined with `&` (the encode at lines 106 and 124); `UrlQuery.ParseEncode` and `UrlQuery.ParseEncodeSet` state its properties |
| `UrlQuery.ParseEncode` | service/etcd_service.go:106 | parsing an encoding gives the values back, less the keys that had no value |
| `UrlQuery.ParseEncodeSet` | service/etcd_service.go:105-106 | re-encoding a parsed query with one key set parses to the old values with only that key replaced |
| `KvStore.Get` | service/etcd_service.go:94 | succeeds exactly when the key is readable and stored, answering its pair; otherwise Unavailable or KeyNotFound |
| `KvStore.List` | service/etcd_service.go:35 | succeeds exactly when the prefix is readable and some stored key starts with it; an empty listing is KeyNotFound |
| `KvStore.ListSound` | service/etcd_service.go:43 | every listed pair is a stored pair whose key starts with the prefix |
| `KvStore.ListComplete` | service/etcd_service.go:43 | every stored key starting with the prefix is listed |
| `KvStore.ListDistinct` | service/etcd_service.go:41 | no key is listed twice |
| `KvStore.Put` | service/etcd_service.go:106 | succeeds exactly when the key takes writes; the store then holds the value at that key and nothing else changed |
| `EtcdService.ServiceName` | service/etcd_service.go:51-52 | the name is what precedes the key's last `/`, less the base path when it starts with it |
| `EtcdService.ServiceAddress` | service/etcd_service.go:53-57 | the address is exactly what follows the last `/`, or empty for a key without `/` |
| `EtcdService.KeySplit` | service/etcd_service.go:50-57 | the key is its directory (base and name, or the name alone), `/`, and its address |
| `EtcdService.ServiceId` | service/etcd_service.go:72 | the standard base64 encoding of the name, `@` and the address; `EtcdService.ServiceIdInjective` and `EtcdService.ServiceIdCollision` state when two IDs agree |
| `EtcdService.ServiceIdInjective` | service/etcd_service.go:72 | for names without `@`, two instances share an ID exactly when they have the same name and the same address |
| `EtcdService.ServiceIdCollision` | service/etcd_service.go:72 | `a@b` at `c` and `a` at `b@c` are different instances with one ID |
| `EtcdService.InstanceKey` | service/etcd_service.go:92 | the joined key starts with the base path and contains `/` |
| `EtcdService.KeyRoundTrip` | service/etcd_service.go:92 | splitting the key that name and address were joined into gives both back |
| `EtcdService.InstanceIdInjective` | service/etcd_service.go:72 | for names without `@`, two instance keys have one ID exactly when they are one key |
| `EtcdService.Record` | service/etcd_service.go:58-62 | a pair yields a record exactly when its value parses as a query |
| `EtcdService.RecordFields` | service/etcd_service.go:63-73 | name and address come from the key, the ID from them, metadata is the raw value, state is the first `state` value or "active" when it is missing or empty, group the first `group` value or "" |
| `EtcdService.SubList` | service/etcd_service.go:43-47 | an inner listing's pairs are stored pairs under the listed key; a failed listing contributes none |
| `EtcdService.FlattenUnder` | service/etcd_service.go:49-52 | every key the inner loop visits lies under the base path, so it contains `/` |
| `EtcdService.FlattenStored` | service/etcd_service.go:49 | every pair the inner loop visits is a stored pair |
| `EtcdService.FlattenHas` | service/etcd_service.go:41-49 | every pair of every inner listing is visited |
| `EtcdService.CollectById` | service/etcd_service.go:74 | every record is filed under its own ID |
| `EtcdService.CollectSound` | service/etcd_service.go:74 | every filed record was there before or is one of the records |
| `EtcdService.CollectComplete` | service/etcd_service.go:74 | every record's ID is filed, and no earlier ID is lost |
| `EtcdService.CollectUntouched` | service/etcd_service.go:74 | an ID no record has keeps what it held |
| `EtcdService.CollectLastWins` | service/etcd_service.go:74 | an ID holds the last record that has it |
| `EtcdService.Registered` | service/etcd_service.go:32-81 | the map FetchServices builds: nothing when the base path cannot be listed, otherwise the records of every visited pair filed by ID with the last one winning; `EtcdService.RegisteredById`, `EtcdService.RegisteredSound`, `EtcdService.RegisteredComplete` and `EtcdService.RegisteredExact` state its properties, and `EtcdService.EtcdRegistry.FetchServices` is proved to return its values |
| `EtcdService.RegisteredById` | service/etcd_service.go:72-74 | each found record is filed under its own ID |
| `EtcdService.RegisteredSound` | service/etcd_service.go:41-74 | every found record is the record of a stored key under the base path |
| `EtcdService.RegisteredComplete` | service/etcd_service.go:43-47 | a decodable stored key under the base path is found when the base path and that key can be listed; a failing listing elsewhere does not hide it |
| `EtcdService.RegisteredExact` | service/etcd_service.go:74 | when the base path and the key can be listed and the key's value decodes, a key whose ID no other key shares is found with exactly its own record |
| `EtcdService.ToList` | service/etcd_service.go:83-89 | the list holds exactly the map's values, as many as the map has IDs, none twice |
| `EtcdService.SetState` | service/etcd_service.go:100-111 | a state edit writes only when the value decodes and the key takes writes; otherwise the store is unchanged and the decode or put error is returned |
| `EtcdService.SetStateWrites` | service/etcd_service.go:105-106 | a written state edit changes only the value at the pair's key, which decodes to the old values with `state` set |
| `EtcdService.UpdatedMetadata` | service/etcd_service.go:132-136 | writes exactly when the key takes writes: the value verbatim at that key, every other key unchanged; otherwise the store is unchanged |
| `EtcdService.Deactivated` | service/etcd_service.go:91-112 | DeactivateService on the store: a failed Get is returned, otherwise the state edit to "inactive"; `EtcdService.DeactivatedSpec`, `EtcdService.DeactivatedRecord` and `EtcdService.DeactivatedListed` state its properties |
| `EtcdService.DeactivatedSpec` | service/etcd_service.go:91-112 | writes exactly when Get, decode and Put succeed; otherwise nothing is written and the first failure is returned; it never panics |
| `EtcdService.Activated` | service/etcd_service.go:114-130 | ActivateService on the store: a failed Get panics, otherwise the state edit to "active"; `EtcdService.ActivatedSpec`, `EtcdService.ActivatedRecord` and `EtcdService.ActivatedListed` state its properties |
| `EtcdService.ActivatedSpec` | service/etcd_service.go:114-130 | writes exactly when Get, decode and Put succeed; it panics exactly when the key is missing or unreadable; a decode failure writes nothing |
| `EtcdService.MissingKeyDiffers` | service/etcd_service.go:116 | on a missing key, DeactivateService returns KeyNotFound while ActivateService panics |
| `EtcdService.StateEditRecord` | service/etcd_service.go:105-106 | after a state edit the instance's record differs only in state and metadata |
| `EtcdService.DeactivatedRecord` | service/etcd_service.go:105 | after a successful DeactivateService the record built from the instance key reads "inactive", with its other fields kept |
| `EtcdService.ActivatedRecord` | service/etcd_service.go:123 | after a successful ActivateService the record built from the instance key reads "active", with its other fields kept |
| `EtcdService.DeactivateThenActivate` | service/etcd_service.go:114-130 | after a successful deactivation, activation also succeeds and the record built from the instance key reads "active", with name, address, ID and group as before |
| `EtcdService.UpdatedMetadataRecord` | service/etcd_service.go:134 | after UpdateMetadata with a query value, the record built from the instance key has its name, address and ID, and exactly that metadata |
| `EtcdService.OnlyKeyWithIdKept` | service/etcd_service.go:91-136 | an edit that writes only at the instance key leaves that key the only one yielding its ID |
| `EtcdService.DeactivatedListed` | service/etcd_service.go:91-112 | after a successful DeactivateService, FetchServices lists the instance under its ID as "inactive" with its other fields kept, when the base path is readable and no other key of the store before the edit yields that ID |
| `EtcdService.ActivatedListed` | service/etcd_service.go:114-130 | after a successful ActivateService, FetchServices lists the instance under its ID as "active" with its other fields kept, when the base path is readable and no other key of the store before the edit yields that ID |
| `EtcdService.DeactivateThenActivateListed` | service/etcd_service.go:91-130 | after a successful DeactivateService, activating the same instance leaves FetchServices listing it under its ID as "active" with name, address, ID and group as before, when the base path is readable and no other key of the store before the edits yields that ID |
| `EtcdService.UpdatedMetadataListed` | service/etcd_service.go:132-136 | after UpdateMetadata with a query value, FetchServices lists the instance under its ID with its name, address and exactly that metadata, when the base path and key are readable and no other key of the store before the edit yields that ID |
| `EtcdService.EtcdRegistry.constructor` | service/etcd_service.go:15-17 | the registry holds the store it was connected to |
| `EtcdService.EtcdRegistry.FetchServices` | service/etcd_service.go:32-81 | the result holds exactly the found records, one per ID, none twice; a failing top listing gives none |
| `EtcdService.EtcdRegistry.DeactivateService` | service/etcd_service.go:91-112 | the new store and the outcome are those of `Deactivated` at the joined key |
| `EtcdService.EtcdRegistry.ActivateService` | service/etcd_service.go:114-130 | the new store and the outcome are those of `Activated` at the joined key |
| `EtcdService.EtcdRegistry.UpdateMetadata` | service/etcd_service.go:132-136 | the new store and the outcome are those of `UpdatedMetadata` at the joined key |
| `Config.SelectRegistry` | service/config.go:29-39 | a backend is selected exactly for "zookeeper", "etcd" and "consul", and it is the one whose tag was given |
| `Config.SelectTag` | service/config.go:29-35 | each backend is selected by its own tag and by no other |
| `Config.NormalizeBaseUrl` | service/config.go:41-43 | the result ends in `/`; a path already ending in `/` is unchanged; any other path gets exactly one byte more and is kept as a prefix |
| `Config.NormalizeIdempotent` | service/config.go:41-43 | normalising twice is normalising once |
| `Config.Boot` | service/config.go:19-45 | exit 1 exactly when the read fails, exit 2 exactly for an unsupported tag, otherwise running with the tag's backend and the base path normalised |
| `Config.Process.constructor` | service/config.go:16-17 | before start-up the configuration is zero and no registry is set |
| `Config.Process.LoadConfig` | service/config.go:19-45 | the exit code is Boot's; on exit 2 the decoded configuration is kept and the registry is never initialised; when it runs, the state is Boot's configuration and backend, initialised |

## Left out

- InitRegistry (service/etcd_service.go:19-30) is not modelled. It connects through libkv to etcd v3, a foreign library. `EtcdService.EtcdRegistry.constructor` takes the connected store. `Config.Process.LoadConfig` records the call at service/config.go:44 only as the flag `initialized`.
- The ZooKeeper and Consul registries are not part of this model, and neither is dispatch through the `Registry` interface (service/service.go:3-9). Only the selected backend is recorded.
- The store's backend behaviour is not modelled: connections, leases, watches and timeouts. A failing listing, read or write is a key in the store's `unreadable` or `unwritable` set, and which requests fail is left open.
- The global `ServerConfig.ServiceBaseURL` is a `base` parameter of the registry's methods, not read from shared state. `Config.Boot` shows that it ends in `/` once start-up succeeds.
- EtcdService.EtcdRegistry.FetchServices: requires the base path to end in `/`, as start-up guarantees. Without that, a listed key without `/` makes the Go code panic at service/etcd_service.go:52, and the model does not follow that path.
- EtcdService.EtcdRegistry.DeactivateService: requires a base path that `path.Clean` leaves alone and a name and an address that are single path elements. Only on those inputs is `path.Join` concatenation (`InstanceKey`). The cleaning that `path.Join` does on other inputs is not modelled.
- EtcdService.EtcdRegistry.ActivateService: the same `path.Join` restriction as DeactivateService.
- EtcdService.EtcdRegistry.UpdateMetadata: the same `path.Join` restriction as DeactivateService.
- EtcdService.ToList: the list's order is left open. Go's map iteration order is unspecified, so the contract speaks of contents and length only.
- Reading `config.json`, `json.Unmarshal` and logging are I/O and are not modelled. `Config.Process.LoadConfig` receives the read's outcome and the decoded configuration as its argument. Unmarshal's own error is ignored in the source, so whatever it decoded is that argument.
- `os.Exit` does not terminate anything in the model. It is a returned exit code.
- `init` (service/config.go:11-13) only calls LoadConfig once. That is a constructor call followed by `LoadConfig`.
- Concurrency is not modelled. Several callers editing one instance at once race in the source (read, modify, write without a version check). The model is sequential.
- `url.ParseQuery` follows Go 1.17 and later, where a `;` in a query is an error. Older releases accepted `;` as a separator.
- Strings are raw bytes. Nothing depends on UTF-8 validity.
