# Local cache and field-name converters, in Dafny

This project models two parts of a browser game-catalogue client and proves properties of them.

**The `LocalDb` cache** (`src/data/local-storage/LocalDb.ts`) keeps API records (games, platforms, publishers, genres, tags) in the browser's Indexed Database:
- One object store per record kind. Each store holds its records by their numeric `id`.
- A creation flag in `localStorage`, under `name + "_db_created"`.

The cache is modelled as the class `LocalStorage.LocalDb`. Its state:
- the `localStorage` map;
- the version of the database on disk (0 when there is none);
- the stores, as a map from store name to a map from key to record.

Each promise-returning operation is a method that returns how its promise settles: `Resolved(value)`, `Rejected(reason)`, or `Pending` when the promise never settles.

The database engine is reduced to its observable rules:
- **Opening at a version.** An absent or older database is upgraded. A newer one fails with a VersionError.
- **A transaction on a missing store.** It throws NotFoundError inside the open request's success listener, so the operation's promise never settles.
- **Store operations.** `get`, `add` (fails on a key already present), `put` (inserts or replaces), `delete` (an absent key is no error), and a forward cursor that visits the keys in ascending order.

Two loops are modelled as loops:
- **`getAll`'s cursor loop** (`CursorScan`) is proved to yield every record exactly once, in ascending key order.
- **`addBulk`'s loop** keeps the `completed` counter and the `addedObjects` accumulator. It is proved against `AddEach`, the effect of the `add`s run in input order. The records whose `add` fails are neither overwritten nor returned.

**The field-name converters** (`src/utils/ParserUtils.ts`) turn snake_case keys of the remote API into camelCase and back:
- `toCamelCase` is a function over the `_`-separated tokens. The TypeError it throws on an empty token after the first is `None`.
- `toSnakeCase` is a method with the source's replace loop. It is proved equal to the character map `SnakeCase`.
- `mapToCamelCase` and `mapToSnakeCase` are loops over the object's entries. A later entry overwrites an earlier one with the same converted key.

The proofs cover:
- the absence of `_` and of upper-case letters in the outputs;
- the length rules;
- the exact condition under which `toCamelCase` throws;
- both round trips.

Where the documented behaviour and the code differ, the model follows the code:
- `addBulk` does not look a key up before adding it. It relies on `add` failing. A record whose key is already stored is therefore left in place and is *not* in the resolved list.
- `create` writes the creation flag in the open request's success handler. That handler runs even after `createStores` has rejected. So the flag is set although the promise is rejected with `"failed to create object stores: …"`.
- The guards of `addObject`, `updateObject`, `removeObject` and `addBulk` call `reject(false)` without returning. The model runs the rest of the operation: the engine call happens and the stores change as they otherwise would. The promise keeps its first settlement, the rejection with `false`.

## Model

| member | source | states |
|---|---|---|
| ParserUtils.ToUpper | src/utils/ParserUtils.ts:46 | `toUpperCase` on one character turns each letter a-z into the upper-case letter 32 code points below it, and keeps every other character |
| ParserUtils.ToLower | src/utils/ParserUtils.ts:60 | `toLowerCase` on one character turns each letter A-Z into the lower-case letter 32 code points above it, undoing `ToUpper`, and keeps every other character |
| ParserUtils.LowerOfUpper | src/utils/ParserUtils.ts:60 | lower-casing an upper-cased lower-case letter gives it back |
| ParserUtils.Split | src/utils/ParserUtils.ts:39 | `split('_')` yields one more token than there are `_`, no token holds `_`, and joining the tokens with `_` gives the text back |
| ParserUtils.UpperCaseFirst | src/utils/ParserUtils.ts:46-49 | a token's first character is upper-cased and the rest kept, at the same length; the empty token throws (`None`) and no other does |
| ParserUtils.ToCamelCase | src/utils/ParserUtils.ts:38-53 | a text without `_` is one token and comes back unchanged; its other properties are the lemmas `CamelCaseAgreesWithChars`, `ToCamelCaseOutput` and `ToCamelCaseThrows` |
| ParserUtils.CamelCaseByChars | src/utils/ParserUtils.ts:38-53 | character-level reading of `toCamelCase`; its output holds no `_` and is shorter than the input by the number of `_` |
| ParserUtils.CamelCaseAgreesWithChars | src/utils/ParserUtils.ts:38-53 | the token-based `toCamelCase` and the character-level reading agree on every input, including where it throws |
| ParserUtils.ToCamelCaseOutput | src/utils/ParserUtils.ts:43-52 | when `toCamelCase` returns, its result holds no `_` and its length is the input's minus the number of `_` |
| ParserUtils.UpperCaseTokensFails | src/utils/ParserUtils.ts:43-50 | the map over the later tokens throws exactly when one of them is empty |
| ParserUtils.ToCamelCaseThrows | src/utils/ParserUtils.ts:46-49 | `toCamelCase` throws exactly when a token after the first is empty |
| ParserUtils.CamelCaseByCharsThrows | src/utils/ParserUtils.ts:46-49 | the same condition on characters: a `_` at the end of the text or right before another `_` |
| ParserUtils.SnakeCase | src/utils/ParserUtils.ts:55-63 | what `toSnakeCase` means: each upper-case letter becomes `_` and its lower-case form, so the text grows by one character per upper-case letter |
| ParserUtils.UpperLetters | src/utils/ParserUtils.ts:56 | `matchAll(/[A-Z]/g)` yields one match per upper-case letter of the text |
| ParserUtils.ReplaceFirst | src/utils/ParserUtils.ts:60 | `replace` with a one-character pattern leaves a text without that character unchanged, and otherwise replaces one occurrence |
| ParserUtils.SnakeCaseNoUpper | src/utils/ParserUtils.ts:55-63 | the snake_case form of any text holds no A-Z |
| ParserUtils.SnakeCaseIdentity | src/utils/ParserUtils.ts:55-63 | a text with no A-Z is its own snake_case form |
| ParserUtils.ToSnakeCase | src/utils/ParserUtils.ts:55-63 | the loop replacing, for each collected upper-case letter in order, its leftmost occurrence by `_` and its lower-case form computes exactly the character map `SnakeCase` |
| ParserUtils.SnakeCaseOutput | src/utils/ParserUtils.ts:55-63 | snake_case output holds no A-Z, is longer than the input by its number of upper-case letters, and equals the input when that has none |
| ParserUtils.CamelCaseOfSnakeCase | src/utils/ParserUtils.ts:38-63 | `toCamelCase(toSnakeCase(s)) == s` for every `s` without `_` |
| ParserUtils.SnakeCaseOfCamelCase | src/utils/ParserUtils.ts:38-63 | `toSnakeCase(toCamelCase(s)) == s` for every `s` with no A-Z whose every `_` is followed by a lower-case letter; `toCamelCase` does not throw there |
| ParserUtils.LastWinsExtend | src/utils/ParserUtils.ts:17 | assigning one more key to the result object keeps "the keys are the assigned keys and each holds its last assigned value" |
| ParserUtils.MapToCamelCase | src/utils/ParserUtils.ts:8-21 | throws exactly when some key's conversion throws; otherwise the keys are the converted keys, each holding the value of the last entry that converts to it, and no key holds `_` |
| ParserUtils.MapToSnakeCase | src/utils/ParserUtils.ts:23-36 | the keys are the snake_case forms of the input keys, each holding the value of the last entry that converts to it, and no key holds A-Z |
| LocalStorage.Get | src/data/local-storage/LocalDb.ts:91-94 | `get` yields the record under the key, and `undefined` exactly when the key is absent |
| LocalStorage.Add | src/data/local-storage/LocalDb.ts:169-176 | `add` fails exactly when the key is present; otherwise it stores the record under its key and keeps every other record |
| LocalStorage.Put | src/data/local-storage/LocalDb.ts:253-257 | `put` stores the record under its key, inserting or replacing, and keeps every other key's record |
| LocalStorage.Delete | src/data/local-storage/LocalDb.ts:229-232 | `delete` removes only the given key and keeps the other records; an absent key leaves the store as it was |
| LocalStorage.Settle | src/data/local-storage/LocalDb.ts:145-162 | a promise settles once: a settled promise ignores a later `resolve` or `reject`, a pending one takes it |
| LocalStorage.AscendingKeys | src/data/local-storage/LocalDb.ts:119-135 | the cursor visits every key of the store once, in strictly ascending order |
| LocalStorage.CursorScan | src/data/local-storage/LocalDb.ts:125-135 | the cursor loop pushes one record per step and ends with the store's records in key order |
| LocalStorage.ScanYieldsEachRecordOnce | src/data/local-storage/LocalDb.ts:125-135 | the scan of a store yields as many records as it holds, each stored record appears, nothing else appears, and the ids ascend strictly |
| LocalStorage.Materialize | src/data/local-storage/LocalDb.ts:78-84 | the `forEach` of `createObjectStore` inside the `try` adds stores and never drops or changes an existing one |
| LocalStorage.MaterializeOutcome | src/data/local-storage/LocalDb.ts:78-84 | creating the stores succeeds exactly when the names are distinct and not yet taken; existing stores are untouched, new stores are empty, and on success every name has its store |
| LocalStorage.AddEach | src/data/local-storage/LocalDb.ts:186-219 | the batch's `add`s in input order keep every stored key and its record, and accept at most one record per input |
| LocalStorage.AddEachStore | src/data/local-storage/LocalDb.ts:186-219 | after a batch of `add`s the store's keys are the old keys plus the batch's, no record already present is overwritten, and the first record of the batch with a new key is the one stored |
| LocalStorage.AddEachAddedStored | src/data/local-storage/LocalDb.ts:191-198 | every record a batch returns is one of the batch and is the record now stored under its key |
| LocalStorage.AddEachAddedDistinct | src/data/local-storage/LocalDb.ts:191-198 | a batch never returns two records with the same key |
| LocalStorage.AddEachAddedIds | src/data/local-storage/LocalDb.ts:186-219 | the keys a batch returns are exactly the batch's keys that were not already stored |
| LocalStorage.LocalDb.constructor | src/data/local-storage/LocalDb.ts:19-23 | the flag key is `name + "_db_created"`; the cache starts over the browser's persisted state |
| LocalStorage.LocalDb.IsCreated | src/data/local-storage/LocalDb.ts:269-271 | `isCreated` holds exactly when the key `name + "_db_created"` is in `localStorage` |
| LocalStorage.LocalDb.VersionAfterOpen | src/data/local-storage/LocalDb.ts:25-27 | after `indexedDB.open(name, version)` the database is at the larger of the requested and the on-disk version |
| LocalStorage.LocalDb.AccessTo | src/data/local-storage/LocalDb.ts:29-47 | opening fails with VersionError exactly when the database on disk is newer, and the store is handed out exactly when the version fits and the store exists; otherwise it is missing |
| LocalStorage.LocalDb.OpenObjectStore | src/data/local-storage/LocalDb.ts:25-47 | opening fails with VersionError when the database on disk is newer; otherwise the database is at this version afterwards, and the store is handed out, or the promise never settles when the store is missing |
| LocalStorage.LocalDb.CreateStores | src/data/local-storage/LocalDb.ts:72-85 | creates one empty store per descriptor in order, stops at the first name already taken, and then reports `"failed to create object stores: ConstraintError"`; the stores created before it remain |
| LocalStorage.LocalDb.Create | src/data/local-storage/LocalDb.ts:49-70 | rejects with `"database already created"` and changes nothing when the flag is present; rejects with VersionError and changes nothing when the database on disk is newer; otherwise it creates the stores if the database is upgraded, writes the flag even when store creation failed, and resolves true exactly when store creation succeeded |
| LocalStorage.LocalDb.GetObjectById | src/data/local-storage/LocalDb.ts:87-105 | resolves with the record under the key, or `undefined` when there is none; rejects with the open error; never settles on a missing store |
| LocalStorage.LocalDb.GetAll | src/data/local-storage/LocalDb.ts:115-143 | resolves with the store's records in ascending key order; rejects with the open error; never settles on a missing store |
| LocalStorage.LocalDb.HandleAddObject | src/data/local-storage/LocalDb.ts:164-177 | on an open store, `add` resolves true and stores the record when its key is new, and rejects with ConstraintError leaving the store unchanged otherwise |
| LocalStorage.LocalDb.AddObject | src/data/local-storage/LocalDb.ts:145-162 | rejects with false when the database is not created or the record is missing; otherwise resolves true and inserts a record with a new key, rejects with ConstraintError and keeps the stored record for an existing key, rejects with the open error, or never settles on a missing store |
| LocalStorage.LocalDb.UpdateObject | src/data/local-storage/LocalDb.ts:245-267 | rejects with false when the database is not created or the record is missing; otherwise stores the record under its key (insert or replace) and resolves true, rejects with the open error, or never settles on a missing store |
| LocalStorage.LocalDb.RemoveObject | src/data/local-storage/LocalDb.ts:223-243 | rejects with false when the database is not created; otherwise deletes only the key and resolves true whether or not it was present, rejects with the open error, or never settles on a missing store |
| LocalStorage.LocalDb.AddBulk | src/data/local-storage/LocalDb.ts:179-221 | rejects with false when the database is not created or the batch is empty; otherwise `completed` counts every record once, and the batch resolves, when that count reaches the batch size, with the records whose `add` succeeded (none when the open fails); the store ends as `AddEach` says; never settles on a missing store |
| LocalStorage.LocalDb.Reset | src/data/local-storage/LocalDb.ts:273-276 | afterwards `isCreated` is false, the database is gone with all its stores and records, and only the flag is removed from `localStorage` |
| LocalDbScenarios.UpdateThenGet | src/data/local-storage/LocalDb.ts:245-267 | `updateObject` resolves true, and a following `getObjectById` of that key resolves with the new record |
| LocalDbScenarios.RemoveThenGet | src/data/local-storage/LocalDb.ts:223-243 | `removeObject` resolves true, a following `getObjectById` resolves with `undefined`, and every other record of the store is unchanged |
| LocalDbScenarios.AddSameKeyTwice | src/data/local-storage/LocalDb.ts:145-177 | of two `addObject` calls with the same key, the first resolves true, the second rejects with ConstraintError, and the first record stays stored |
| LocalDbScenarios.CreateTwice | src/data/local-storage/LocalDb.ts:49-70 | a second `create` is rejected with `"database already created"` |
| LocalDbScenarios.ResetThenCreate | src/data/local-storage/LocalDb.ts:273-276 | after `reset`, `create` with distinct store names resolves true and leaves exactly those stores, all empty |
| LocalDbScenarios.AddBulkThenGetAll | src/data/local-storage/LocalDb.ts:179-221 | `addBulk` resolves with one record per new key, and a following `getAll` shows each of them next to every record that was already stored |

## Left out

- Case mapping is ASCII only: `toUpperCase`/`toLowerCase` of other characters (ß, accented letters, characters whose upper-case form is longer) is not modelled. Nor are UTF-16 surrogate pairs.
- A plain object is the sequence of its entries, in the order `Object.entries` gives. JavaScript's ordering of integer-like keys and the special `__proto__` key are not modelled.
- The values copied by `mapToCamelCase`/`mapToSnakeCase` are opaque, so the copy being shallow is not visible.
- The per-record chains of `addBulk` run concurrently in the browser. The model runs them one after another in input order. The order in which their callbacks complete is not modelled.
- `readonly`/`readwrite` transaction modes and transaction auto-commit are not modelled, nor is the store descriptor's key-path option: every store keys its records by `id`.
- Engine failures other than the version check, a store name already taken and a key already present are not modelled, for example quota errors and aborted transactions.
- `indexedDB.deleteDatabase` completes asynchronously and can be blocked by open connections. `reset` is modelled as taking effect at once.
- `console.log` output, and the separate `rejectFailedEvent` helper. The model rejects with the request's error directly, identified by its DOMException name.
- LocalStorage.LocalDb.CreateStores: the rejection text is the prefix followed by the error's name only. The browser's message text after the name is not modelled.
- LocalStorage.LocalDb.constructor: requires a version of at least 1, since `indexedDB.open` throws for version 0. The persisted state is passed in as parameters instead of being read from the browser.
- LocalStorage.LocalDb.AddObject: a record missing at the call (`undefined`) is `None`. Other falsy values are outside the record type.
- The record fields other than `id` are opaque string maps. The record types' own fields are not modelled.
- `src/data/local-storage/ILocalDb.ts`, `src/filters/ApiMiddlewareFilter.ts` and `src/services/ApiService/ApiService.ts` are not part of this model. Nor are the React views, routes and context, or `vite.config.ts`. They are interfaces, glue around remote services, client configuration and UI.
