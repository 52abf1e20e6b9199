# Asset ingestion and the assets copy task, in Dafny

This project models two parts of the eden-js asset bundle.

**The File model** (`bundles/asset/models/file.js`) is an asset record with three ways in:
- `fromFile` ingests a local path.
- `fromBuffer` ingests bytes held in memory.
- `fromURL` ingests a download.

The two indirect ways stage their bytes in a scratch file, `<appRoot>/data/cache/tmp/<hash>`. They then commit through `fromFile`. `fromFile` stamps the record's fields (`ext`, `hash`, `name`, `size`, `transport`) and runs the `file.create` unit. That unit pushes the bytes to the storage backend (the "transport") the record is pinned to, then saves the record. `remove` asks the backend to delete the object, ignores whatever happens, and then removes the record. `url`, `transport` and `sanitise` read the record.

**The assets build task** (`bundles/asset/tasks/assets.js` and `assets.ts`, whose `thread` is identical) copies every globbed file. Lines 51-63 of the two files are the same code, so each row below that cites `assets.js` covers the same lines of `assets.ts`. Each destination is `<appRoot>/www/public/assets/` followed by the part of the file's path after the first `assets` that follows the last `bundles/`.

Files:
- `options.dfy` defines the `Option` datatype.
- `js_string.dfy` (module `JsString`) models the JavaScript string operations the code relies on:
  - `indexOf`;
  - `split` and `join` with a literal separator;
  - `replace` with a one-character string;
  - a global one-character `replace`.
  Its lemmas include the split/join round trip and what `split(...).pop()` and `shift()` leave.
- `node_path.dfy` (module `NodePath`) models POSIX `path.basename` and `path.extname`.
- `asset_record.dfy` (module `AssetRecord`) holds the field rules as pure functions:
  - JavaScript truthiness and `||`;
  - the transport resolution of `transport(true)`;
  - `Identify`, the first two `set` calls;
  - `Stamp`, the five `set` calls of `fromFile`.
- `asset_file.dfy` (module `AssetFile`) holds the state machine:
  - a `Host` class gathers the collaborators: file system, configuration, transport registry, backend objects, record store, and a trace of every call made;
  - a `File` class whose methods update the record's fields;
  - `CreateEffect` and `RemoveEffect`, the specifications of the two hooked units.
- `assets_task.dfy` (module `AssetsTask`) holds the path rewrite as functions and the copy loop as a method.

The JavaScript semantics are modelled exactly where they matter:
- An absent field and an empty string are both falsy. So an `ext` derived as `''` is derived again on the next ingestion, and `name || hash + ext` falls back for `''` too.
- `replace('.', '')` drops the first dot only.
- `path.extname(undefined)` and `path.basename(null)` throw before any field is set. These are the `NameNotString` and `PathnameMissing` errors.
- An unregistered transport makes `this.transport()` undefined:
  - in the create unit, `push` then throws after the fields are stamped;
  - in `remove`, the same error is swallowed.

Behaviour of the code worth noting:
- There is no `finally`. When `fromFile` rejects inside `fromBuffer` or `fromURL`, the scratch file is not unlinked.
- `ext` is never lower-cased.
- The default name is the hash immediately followed by the dot-less extension.
- `hash` and `ext` are "set once" only while they are non-empty.
- A download's HTTP status is never inspected.

## Model

| member | source | states |
|---|---|---|
| AssetRecord.PinnedTransport | bundles/asset/models/file.js:188-193 | the transport name is the recorded one if truthy, else the configured one if truthy, else "local"; it is never empty |
| AssetRecord.PinnedTransportIsStable | bundles/asset/models/file.js:136 | once the resolved name is recorded, resolving again ignores any later configuration |
| AssetRecord.ExtOfIsExtname | bundles/asset/models/file.js:132 | the stored extension holds no dot; it is empty when `extname` is, and otherwise `extname` is "." followed by it |
| AssetRecord.Identify | bundles/asset/models/file.js:52-53 | a truthy `ext`/`hash` is kept; a falsy one is replaced by the name's extension / the fresh value; `hash` ends truthy; other fields untouched |
| AssetRecord.Stamp | bundles/asset/models/file.js:132-136 | identity as in Identify; name is the given truthy name or hash followed by ext; size is the source length; transport is the pinned one |
| AssetRecord.IdentityIsKept | bundles/asset/models/file.js:132-133 | re-ingesting into a record with truthy `ext` and `hash` keeps both, whatever the new name and fresh value |
| AssetRecord.EmptyExtIsDerivedAgain | bundles/asset/models/file.js:132 | an `ext` stored as "" is falsy and is derived again from the next name |
| AssetRecord.IdentifyThenStamp | bundles/asset/models/file.js:52-62 | setting identity before staging and again inside fromFile ends as one stamp with the first fresh value |
| AssetRecord.StampIsIdempotent | bundles/asset/models/file.js:132-136 | stamping a stamped record with the same name and size changes nothing, whatever the fresh value or configuration |
| NodePath.TrimTrailingSlashesFacts | bundles/asset/models/file.js:82 | trimming keeps a prefix, removes only '/', and leaves no trailing '/' |
| NodePath.AfterLastSlashFacts | bundles/asset/models/file.js:82 | the last piece is a slash-free suffix that is the whole path or follows a '/' |
| NodePath.BasenameFacts | bundles/asset/models/file.js:82 | the basename holds no '/', ends the trimmed path, and is all of it or follows its last '/' |
| NodePath.LastIndexOfCharFacts | bundles/asset/models/file.js:132 | the found index holds the character and none follows it; none is found only when the character is absent |
| NodePath.ExtnameFacts | bundles/asset/models/file.js:132 | the extension is "" or "." then dot-free text; it ends the basename; it is "" exactly for no dot, a lone leading dot, or ".." |
| JsString.RemoveFirst | bundles/asset/models/file.js:132 | with the character absent nothing changes; a leading one is dropped; when present, exactly one character goes |
| JsString.RemoveFirstDropsFirst | bundles/asset/models/file.js:132 | the character removed is the first occurrence: the result is the text before it followed by the text after it |
| JsString.ReplaceAllFacts | bundles/asset/tasks/assets.js:53 | same length; every position holding the old character holds the new one, every other position is unchanged |
| JsString.IndexOfFirst | bundles/asset/tasks/assets.js:57 | `indexOf` returns an occurrence with none before it, and returns none exactly when the pattern does not occur |
| JsString.JoinSplit | bundles/asset/tasks/assets.js:57-59 | joining the pieces of a split with the same separator gives back the string |
| JsString.LastOfSplit | bundles/asset/tasks/assets.js:53-56 | the popped piece is a separator-free tail; it is everything when there is no separator, and otherwise follows an occurrence |
| JsString.SplitDropFirst | bundles/asset/tasks/assets.js:57-59 | dropping the first piece and rejoining gives the text after the first separator, or "" when there is none |
| JsString.NoLaterOccurrence | bundles/asset/tasks/assets.js:53 | for a separator whose last character is unique in it, an occurrence followed by no other one is the last one |
| AssetFile.CreateEffect | bundles/asset/models/file.js:139-145 | the unit succeeds iff a backend is registered, its push succeeds and the save succeeds; an object is stored iff the push succeeds; no backend means no calls |
| AssetFile.CreateOrder | bundles/asset/models/file.js:139-145 | persistence happens at most once: exactly one push when a backend is registered and none otherwise, at most one save after it; a save happens exactly when the push succeeded and never before it; the push goes to the pinned transport under the record's hash |
| AssetFile.RemoveEffect | bundles/asset/models/file.js:156-169 | the record removal is always the last call; the backend is asked first only when registered; the result is the record store's; at most that object goes |
| AssetFile.RemoveIgnoresBackend | bundles/asset/models/file.js:160-167 | a missing, failing or succeeding backend leaves removal's result and final call the same |
| AssetFile.File.Transport | bundles/asset/models/file.js:188-200 | the backend registered under "asset.transport." plus the pinned name, if there is one |
| AssetFile.File.Url | bundles/asset/models/file.js:176-179 | null when no backend resolves; otherwise whatever that backend reports for the record, which may itself be null |
| AssetFile.File.Sanitise | bundles/asset/models/file.js:209-219 | the summary holds exactly the id, the url, the name, the hash and both timestamps |
| AssetFile.File.FromFile | bundles/asset/models/file.js:124-149 | a missing source or a missing name with no ext fails with nothing changed; otherwise the record is stamped and the host changes as the create unit says; success means the recorded transport resolves to a backend and `url()` is that backend's answer |
| AssetFile.File.RunCreateUnit | bundles/asset/models/file.js:139-145 | the calls, stored objects and result are those of the create unit |
| AssetFile.File.FromBuffer | bundles/asset/models/file.js:50-69 | without ext or name it fails with nothing changed; otherwise it stamps as fromFile, writes the scratch file, commits, and unlinks only on success |
| AssetFile.File.SetIdentity | bundles/asset/models/file.js:52-53 | the fields become Identify of the old fields |
| AssetFile.File.StageBuffer | bundles/asset/models/file.js:51-59 | identity set, tmp dir ensured, bytes written to the scratch file named by the hash |
| AssetFile.File.StageDownload | bundles/asset/models/file.js:84-102 | identity set, tmp dir ensured, response body piped into the scratch file named by the hash |
| AssetFile.File.CommitStaged | bundles/asset/models/file.js:105-108 | commit as fromFile from the scratch file; it is unlinked on success and left in place on failure |
| AssetFile.File.FromURL | bundles/asset/models/file.js:80-112 | a missing pathname fails with nothing changed; otherwise the name is the basename, the record is stamped, and the body is staged, committed and unlinked on success |
| AssetFile.File.Remove | bundles/asset/models/file.js:156-169 | the calls, stored objects and result are those of the remove unit |
| AssetsTask.SegmentAfterLastBundles | bundles/asset/tasks/assets.js:53-56 | the segment is a suffix with no "bundles/"; it is the whole path when there is none, and otherwise follows the last occurrence |
| AssetsTask.AfterFirstAssets | bundles/asset/tasks/assets.js:57-59 | the result is the text after the first "assets" with later ones kept, or "" when the segment has none |
| AssetsTask.AmendIsSuffix | bundles/asset/tasks/assets.js:53-59 | the rewritten path is a suffix of the normalised source path and holds no backslash |
| AssetsTask.DestinationUnderPublicAssets | bundles/asset/tasks/assets.js:62 | every destination is `<appRoot>/www/public/assets/` followed by a backslash-free suffix of the normalised source |
| AssetsTask.PlanCopiesEachFile | bundles/asset/tasks/assets.js:51-63 | the plan holds exactly one copy per file, in glob order, from that file to its destination |
| AssetsTask.Thread | bundles/asset/tasks/assets.js:51-63 | the copies made are the plan for a prefix of the files; all files are copied unless a copy is refused; a refused copy is the last one made and every earlier one was accepted |

## Left out

- `uuid()` is a parameter, `freshHash`. Its randomness is not modelled.
- `url.parse` is not modelled. `fromURL` takes the pathname the parser finds; `None` stands for a null pathname.
- The network of `request.get` is not modelled. The response body is a parameter. The download counts as fully written to the scratch file once the response ends: the source resolves on the response's `end` and does not wait for the file write to finish, so its existence check, size and push may see fewer bytes than the body, or no file yet; the model does not capture that race. A request that errors never settles the promise in the source, so that hang is not modelled.
- `fs.ensureDirSync` is recorded as an event only. Directories are not modelled.
- `fs.statSync(location).size` is modelled as the byte length of the file held at that path.
- The hook bus `eden.hook` is not modelled. Each hook runs its callback unchanged; observers and interception are not part of this model.
- Storage backends are not part of this model. Each registered backend is a value: whether its push succeeds, whether its remove succeeds, and its address function, which may return null.
- The generic record store is not part of this model: the `Model` base class's `save`, `super.remove`, `_id` and timestamps. Its success is the flag `dbOk`, and `_id` and the timestamps are plain fields.
- Asynchrony and interleaving of concurrent ingestions are not modelled. Each method runs to completion.
- Windows path semantics are not modelled. Only POSIX `path` is modelled.
- `run` and `watch` of the assets task are not modelled. They are worker-thread and event plumbing, and `watch` is a constant pattern.
- `glob` expansion is not modelled. `Thread` takes the file list.
- `fs.copy` is not modelled beyond accept or refuse. Its outcome is given by the set of destinations it refuses.
- NodePath.Basename: its facts are stated by NodePath.BasenameFacts rather than as its own postcondition, to keep the verifier from unfolding them in every caller.
- NodePath.Extname: its facts are stated by NodePath.ExtnameFacts, for the same reason.
- JsString.ReplaceAll: its facts are stated by JsString.ReplaceAllFacts, for the same reason.
- AssetRecord.ExtOf: its facts are stated by AssetRecord.ExtOfIsExtname, for the same reason.
