# chrome-extension plugin: input classification, in Dafny

This project models the `chromeExtension` bundler plugin of
`src/index.ts`: the hooks that turn the bundler's configuration into
events for the build supervisor, and the stub module the plugin serves.

- The `options` hook receives `input` as a string, an array of ids, a
  record from entry name to id, or not at all. An array is the default.
- For each manifest and HTML entry, the hook sends an `ADD_FILE` event
  with origin `input` to the supervisor.
- The hook returns the remaining input. When nothing remains, it returns a
  single reserved stub id, `_stubIdForRPCE`, so that the bundler still has
  an entry.
- `resolveId` and `load` recognise only that stub id.
- `config` sends `ROOT` only for a string root.
- `watchChange` forwards every change as `CHANGE`.

Files:

- `wrappers.dfy`: `Option`. A hook result of `None` stands for `null`; an
  option or a root of `None` stands for an absent (`undefined`) value.
- `paths.dfy`: POSIX `path.basename` and the `isHtml` filter.
- `sending_filter.dfy`: `Array.prototype.filter` with a callback that sends
  an event for each element it drops. `Sent` is the events sent, in order;
  `Kept` is the array returned.
- `plugin.dfy`: the event and input types, the two filter callbacks, the
  specification `PartitionInput` of the `options` hook, `resolveId`, `load`,
  the `config` guard, and the class `ChromeExtension`. Its field `sent` is
  every event sent to the supervisor so far. Its methods are the
  state-changing hooks, proved against the functions above.
- `plugin_properties.dfy`: lemmas about the hook. The array partition, the
  record residual, idempotence, and worked inputs.

## Model

| member | source | states |
|---|---|---|
| `Paths.Basename` | src/index.ts:96 | the basename contains no '/', and it is the tail of the path after trailing separators are removed, preceded by a '/' or by nothing |
| `Paths.IsHtml` | src/index.ts:27 | an id is HTML if and only if it is some stem followed by `.html`. This is the suffix test that stands for the `**/*.html` filter used at src/index.ts:88 and :113 |
| `Paths.BasenameOfSegment` | src/index.ts:96 | a path without a separator is its own basename |
| `Paths.BasenameOfJoin` | src/index.ts:96 | the basename of `dir/name` is `name` |
| `SendingFilter.Sent` | src/index.ts:87-107 | the callback sends at most one event per element |
| `SendingFilter.Kept` | src/index.ts:87-107 | `filter` keeps only elements of the input for which the callback sends nothing |
| `SendingFilter.SentKeptCount` | src/index.ts:87-107 | every element either sends one event or is kept, never both and never neither |
| `SendingFilter.FilterAppend` | src/index.ts:87-107 | filtering a concatenation concatenates both the events and the residual, so both follow input order |
| `SendingFilter.KeptExactly` | src/index.ts:104-106 | an element is kept if and only if it occurs in the input and its callback sends nothing |
| `SendingFilter.SentExactly` | src/index.ts:88-103 | an event is sent if and only if some input element's callback produces it |
| `SendingFilter.SentAt` | src/index.ts:87-107 | the event of element i comes right after the events of the elements before i |
| `SendingFilter.KeptAt` | src/index.ts:87-107 | kept element i comes right after the kept elements before i, so the residual keeps the original order |
| `SendingFilter.FilterIdempotent` | src/index.ts:87-107 | filtering the residual again sends nothing and keeps all of it |
| `Plugin.IdCallback` | src/index.ts:88-106 | an id is taken over if and only if it is HTML or its basename starts with "manifest". It becomes HTML when it is HTML, even if its basename starts with "manifest"; otherwise it becomes MANIFEST. The event has origin `input` and no file name |
| `Plugin.EntryCallback` | src/index.ts:112-133 | an entry is taken over if and only if its id is HTML or its name is exactly "manifest". An HTML entry carries its name as `fileName`; a manifest entry carries none |
| `Plugin.PartitionInput` | src/index.ts:72-138 | the returned input is never empty. A string input sends exactly one MANIFEST event and returns `[stubId]`. A missing input sends nothing. Any other returned input holds only unclaimed elements of the input |
| `Plugin.RootEvents` | src/index.ts:62-66 | `ROOT(root)` is sent if and only if the root is a string, and at most once |
| `Plugin.ResolveId` | src/index.ts:183-186 | returns the id if and only if it is the stub id; otherwise `null` |
| `Plugin.Load` | src/index.ts:188-191 | returns the stub code `console.log('_stubIdForRPCE')` if and only if the id is the stub id; otherwise `null` |
| `Plugin.ChromeExtension.constructor` | src/index.ts:40-44 | a new plugin has sent nothing to its supervisor |
| `Plugin.ChromeExtension.Send` | src/index.ts:40-44 | `send` appends exactly one event to those sent so far, after them. Every hook that sends calls it (src/index.ts:64, :79, :89, :97, :114, :123, :194) |
| `Plugin.ChromeExtension.Config` | src/index.ts:62-66 | appends exactly the `config` hook's events to those sent so far |
| `Plugin.ChromeExtension.FilterSending` | src/index.ts:87-107 | the loop sends the callback's events in order and returns exactly the kept elements |
| `Plugin.ChromeExtension.Options` | src/index.ts:72-145 | sends exactly the events `PartitionInput` gives and returns its input. The plugins are unchanged, because the builtins list is empty. The other options are passed through |
| `Plugin.ChromeExtension.WatchChange` | src/index.ts:193-195 | appends exactly one `CHANGE(id, change)` event |
| `PluginProperties.ArrayInputPartition` | src/index.ts:87-107 | as multisets, the ids of the sent events plus the residual ids equal the input ids |
| `PluginProperties.OptionsAddsOnlyInputs` | src/index.ts:77-138 | every event the `options` hook sends is an `ADD_FILE` of an input asset of type HTML or MANIFEST |
| `PluginProperties.FinalInputIsResidual` | src/index.ts:77-137 | for array and record inputs, the returned input is exactly the residual when it is non-empty, and `[stubId]` otherwise |
| `PluginProperties.StubIdIsKept` | src/index.ts:88-133 | neither callback takes over the stub id, unless a record entry named "manifest" carries it |
| `PluginProperties.OptionsIdempotent` | src/index.ts:72-145 | feeding the returned input to the hook again sends nothing and returns it unchanged |
| `PluginProperties.ToRecord` | src/index.ts:137 | the map view of an entry list, as `Object.fromEntries` builds it: the name of the list's last entry maps to that entry's id |
| `PluginProperties.ToRecordLastWins` | src/index.ts:137 | every name maps to the id of the last entry carrying that name |
| `PluginProperties.ToRecordOfDistinct` | src/index.ts:137 | when names are distinct, as an object's keys are, every entry's name maps to its own id |
| `PluginProperties.ToRecordKeys` | src/index.ts:137 | the keys of that map are exactly the names of the entries |
| `PluginProperties.RecordResidual` | src/index.ts:111-137 | with distinct entry names, the returned record is the input record restricted to the unclaimed names, each mapped to its original id |
| `PluginProperties.ManifestPathInput` | test/mv2/content-script-react-tsx/rollup.config.js:9 | the test project's input `[dir/src/manifest.json]` sends one MANIFEST event and returns `[stubId]` |
| `PluginProperties.HtmlWinsOverManifestName` | src/index.ts:88-121 | `pages/manifest.html` is added as HTML in both branches, not as the manifest |
| `PluginProperties.RecordInputExample` | src/index.ts:111-137 | a record of a manifest, a popup page and a script sends MANIFEST without a name, then HTML named `popup`, and returns only the script entry |
| `PluginProperties.ConfigThenOptions` | src/index.ts:62-145 | when `config` runs before `options`, the supervisor receives `ROOT`, if any, first and only once, followed by the `options` events |

## Left out

- The supervisor state machine (`./supervisor.machine`), `useMachine`, `useConfig`, `waitFor` and `narrowEvent` are not part of this model. `send` is modelled as appending to `ChromeExtension.sent`; what the supervisor does with the events is not modelled.
- `buildStart`, which sends `START` and waits for the `watch` state, is left out. So are its `pluginsRunner` service and `runPlugins`, whose body is empty. They are asynchronous orchestration over plugins outside this model.
- `configureServer` and the Vite adaptor shim are host integration and are left out.
- The logging subscription on the supervisor is console output only and is left out.
- `Paths.IsHtml` approximates the `createFilter` glob with a `.html` suffix test. The glob library's rules are not modelled: patterns resolved against the working directory, dot-files, ids of virtual modules.
- `Paths.Basename` models POSIX `path.basename`; the Windows variant, which also splits on `\`, is not modelled.
- A record input is modelled as its `Object.entries` sequence, in enumeration order. The JavaScript rule that integer-like keys are enumerated first is not modelled. The record lemmas assume distinct names, as an object's keys are.
- The record returned by the hook is modelled as its list of entries (`Record(kept)` in `Plugin.PartitionInput` and `Plugin.ChromeExtension.Options`), not as a map. `PluginProperties.ToRecord` is only the map view that `Object.fromEntries` would build, where a later entry wins. The record lemmas use it to state what the returned record maps each name to.
- An `input` of `null` is not modelled. It is neither a string nor an array, so `Object.entries(null)` throws.
- A `config.root` that is not a string is modelled as `None`.
- The `...options` spread is modelled as one opaque value that is passed through unchanged.
- The plugins list is modelled as a sequence of an opaque plugin type. The `false`/`null`/`undefined` members that `builtins` may hold are not modelled, because `builtins` is empty.
- The `change` argument of `watchChange` is modelled as create, update or delete.
- src/manifest-input/__tests__/manifest__hook--watchChange.test.ts exercises the `manifestInput` plugin and its cache. That plugin's source is not part of this model.
