# Discord TOTP vault — a Dafny model

This project models the core of a Discord bot that keeps TOTP secrets for its
users. It proves properties of that model.

The newer command layer gives each user a *vault*. A vault is an object with
`secrets` (label to stored secret) and an optional `defaultLabel`. The
`/auth-save`, `/auth-remove` and `/auth-set-default` commands change the
vault. `/auth-code`, `/auth-list` and `/auth-status` read it.

Stored secrets go through a codec. In *passthrough* mode it leaves them as
they are. With a usable 64-byte key it seals them into
`enc:v1:<iv>:<tag>:<ciphertext>` envelopes.

The whole store is persisted in one of two ways:
- through a MongoDB collection, with one upsert per user;
- as a JSON file, written through a temporary file and a rename. A file that
  does not parse is backed up and reset.

The legacy bot keeps one `tempSecret`/`enabledSecret` pair per user. It
moves that pair through setup, verify and disable.

Modules, one per source file:

| file | module | models |
|---|---|---|
| `wrappers.dfy` | `Wrappers` | `Option` and `Result` |
| `js.dfy` | `Js` | JavaScript values, truthiness, property reads, `String(v)`, `trim`, `toUpperCase`, `toLowerCase`, `startsWith`, `split` |
| `validators.dfy` | `Validators` | `src/validators.js` |
| `security.dfy` | `Security` | `src/security.js` |
| `storage.dfy` | `Storage` | `src/storage.js` |
| `commands.dfy` | `Commands` | the handlers of `src/commands.js` |
| `bot.dfy` | `LegacyBot` | the handlers of `src/bot.js` |

How each kind of source code is modelled:
- Pure code becomes functions over datatypes. This covers the validators, the
  codec and the building of storage operations.
- Code that changes state in place becomes classes:
  - `Commands.Handlers` holds the store that an interaction works on, and
    the list of stores handed to `writeStore`.
  - `Storage.StorageBackend` holds the connection flag, the filesystem and
    the bulk writes sent.
  - `LegacyBot.Bot` holds the legacy store and its writes.
- Each method is proved against a specification function. Lemmas then relate
  those functions to one another.

Foreign code is made into parameters:
- The cipher, Base64, SHA-256 and UTF-8 are function fields of
  `Security.Primitives`. Any hypotheses about them are stated separately
  (`Sound`, `Authentic`).
- JSON parse and stringify are the fields of `Storage.JsonText`.
- The TOTP generator is a function to `Option<string>`, where `None` means
  it throws. speakeasy's verifier is a boolean function.
- These all become parameters:
  - the random IV;
  - the clock readings;
  - the new setup secret;
  - whether the MongoDB connection succeeds;
  - whether the backup copy succeeds;
  - whether the setup DM is delivered;
  - the documents a collection returns.

## Model

| member | source | states |
|---|---|---|
| Js.Trim | src/validators.js:2 | `trim` never lengthens its input |
| Js.TrimShape | src/validators.js:1-3 | `trim` removes exactly a whitespace prefix and a whitespace suffix, and the result neither starts nor ends with whitespace |
| Js.TrimIdempotent | src/validators.js:1-3 | trimming a trimmed string changes nothing |
| Js.TrimStartShape | src/validators.js:2 | the leading-whitespace pass cuts off only whitespace and leaves a suffix that starts with non-whitespace |
| Js.TrimEndShape | src/validators.js:2 | the trailing-whitespace pass cuts off only whitespace and leaves a prefix that ends with non-whitespace |
| Js.ToUpperAt | src/validators.js:7 | upper-casing maps each character on its own and keeps the length |
| Js.ToLowerAt | src/commands.js:68 | lower-casing a label maps each character on its own and keeps the length |
| Js.JoinSplit | src/security.js:47 | joining the pieces of `split(':')` with `:` gives back the string |
| Js.SplitAfterPiece | src/security.js:47 | splitting `a:b`, where `a` has no `:`, yields `a` followed by the pieces of `b` |
| Js.NatToStringRoundTrip | src/storage.js:77 | the decimal text of a clock reading reads back as that number |
| Js.NatToStringInjective | src/storage.js:77 | distinct numbers have distinct decimal texts |
| Validators.NormalizeCode | src/validators.js:1-3 | a missing input normalises to "" and the result is never longer than the input |
| Validators.NormalizeCodeShape | src/validators.js:1-3 | the normalised code is the input minus surrounding whitespace |
| Validators.NormalizeCodeIdempotent | src/validators.js:1-3 | normalising twice is normalising once |
| Validators.NormalizeSecret | src/validators.js:5-10 | the normalised secret is never longer than the input |
| Validators.FilterShape | src/validators.js:8-9 | a removal pass keeps exactly the accepted characters of the input |
| Validators.FilterKeepsAll | src/validators.js:8-9 | a removal pass over text it accepts throughout changes nothing |
| Validators.NormalizeSecretShape | src/validators.js:5-10 | the normalised secret has no whitespace, no `-` and no lowercase ASCII letter; a character occurs in it exactly when it is the upper-case form of some input character and is neither whitespace nor `-` |
| Validators.NormalizeSecretIdempotent | src/validators.js:5-10 | normalising a normalised secret changes nothing |
| Validators.MatchRepeat | src/validators.js:13 | a character-class repetition `[c]{min,max}` matches exactly when the length is in range and every character is in the class |
| Validators.Base32SplitIsRun | src/validators.js:13 | in `[A-Z2-7]+=*`, the only possible split point is the end of the longest Base32 run |
| Validators.IsLikelyBase32 | src/validators.js:12-14 | true exactly when the text is one or more Base32 characters followed only by `=`, so "" and all-padding strings are rejected |
| Validators.IsValidCodeFormat | src/validators.js:16-18 | true exactly when the trimmed input is six ASCII digits |
| Validators.IsValidLabel | src/validators.js:20-22 | true exactly when the label has 2 to 32 characters, each from `a-z0-9_-` |
| Validators.NormalizeLabel | src/commands.js:68 | a missing label normalises to "", and trim-and-lower-case never lengthens the label |
| Validators.ValidLabelIsNormal | src/commands.js:68 | a valid label is unchanged by trim-and-lower-case, so a saved label can be named again |
| Validators.Base32HasNoColon | src/validators.js:12-14 | a valid Base32 secret contains no `:` |
| Security.CreateCodec | src/security.js:5-19 | a key is derived exactly when the material is a non-empty string that decodes to 64 bytes, and it is then the SHA-256 of those bytes; otherwise the codec is in passthrough mode |
| Security.IsEncryptedPayload | src/security.js:21-23 | a value is an envelope only when it is a string at least as long as `enc:v1:` |
| Security.MarkerNeedsColon | src/security.js:21-23 | only strings starting with `enc:v1:` are envelopes; the bare prefix and non-strings are not |
| Security.Encrypt | src/security.js:25-36 | passthrough returns the plaintext unchanged; with a key the result starts with `enc:v1:` |
| Security.EncryptedEnvelopeShape | src/security.js:30-35 | with a key, the envelope has five `:`-separated fields and the third decodes to the 12-byte IV |
| Security.EnvelopeFields | src/security.js:35 | an envelope splits into `enc`, `v1` and the three Base64 fields, and each field decodes back to the IV, the tag or the ciphertext |
| Security.Decrypt | src/security.js:38-60 | non-envelopes come back unchanged; an envelope fails with no key, fails when it does not have exactly five fields, and succeeds only when the AEAD open succeeds, giving what it opened |
| Security.DecryptEncrypt | src/security.js:25-60 | decrypting what was encrypted gives back the plaintext, in both modes; in passthrough mode the plaintext must not start with `enc:v1:` |
| Security.PassthroughWithoutKey | src/security.js:5-28 | with no usable key material, encryption is off and `encryptSecret` is the identity |
| Security.PassthroughPrefixedPlaintext | src/security.js:38-45 | in passthrough mode a plaintext starting with `enc:v1:` is stored as it is, but decrypting it raises |
| Security.OnlyGenuineEnvelopesDecrypt | src/security.js:52-59 | under an authentic AEAD, an envelope decrypts only if its tag and ciphertext are what sealing some plaintext under its key and IV produces |
| Storage.UserData | src/storage.js:61 | the rest object drops exactly `_id` and `userId` and keeps every other field |
| Storage.DocumentKey | src/storage.js:61-63 | a document has a store key exactly when its `userId` is truthy; a string id is its own key |
| Storage.AddDocument | src/storage.js:61-64 | a document without a truthy `userId` is skipped; otherwise its data replace the entry under its key and no other entry changes |
| Storage.FoldDocuments | src/storage.js:60-65 | the last document, when it has a key, decides that key's entry |
| Storage.ReadDocuments | src/storage.js:56-67 | the remote read loop builds the fold of the documents, taken in order |
| Storage.FoldKeys | src/storage.js:60-65 | the folded store's keys are exactly the keys of documents with a truthy `userId` |
| Storage.FoldLastWins | src/storage.js:60-65 | for a repeated key, the last document with that key wins |
| Storage.FoldAgrees | src/storage.js:60-65 | if every document holds what a store holds for its key, the fold agrees with that store on every key it produces |
| Storage.Replacement | src/storage.js:96 | `{ userId, ...userData }` has the user id plus every spread property, and the spread overrides the id |
| Storage.WriteOperations | src/storage.js:93-99 | exactly one upsert per store entry, filtered on that entry's user id, carrying its replacement |
| Storage.RemoteRoundTrip | src/storage.js:56-68 | reading back the documents upserted by a write reproduces the store, whatever their order, for entries whose data are objects with no `userId` or `_id` of their own and whose id is non-empty |
| Storage.ReplacementReadsBack | src/storage.js:61-63 | a document upserted for an entry reads back under that entry's id, with that entry's data |
| Storage.OwnUserIdRedirects | src/storage.js:96 | user data carrying its own `userId` is read back under that other id |
| Storage.BackupPath | src/storage.js:77 | the backup path is neither the data file nor the temporary file |
| Storage.BackupPathsDistinct | src/storage.js:77 | distinct clock readings name distinct backup files |
| Storage.Ensured | src/storage.js:45-53 | the data directory and file exist afterwards; an existing file is untouched and a missing one holds `{}` |
| Storage.EnsureIdempotent | src/storage.js:45-53 | ensuring twice is ensuring once |
| Storage.ReadFile | src/storage.js:70-88 | a file read always returns a truthy object-typed value |
| Storage.ReadParsedFile | src/storage.js:72-75 | a parsed object or array is returned as it is and anything else as `{}`, and no file changes beyond `ensureDataFile` |
| Storage.ReadCorruptFile | src/storage.js:76-88 | an unparsable file reads as `{}`: its text goes to the backup path when the copy succeeds, the file is reset to `{}`, and no other path changes |
| Storage.WriteFile | src/storage.js:107-110 | after a file write the data file holds the new snapshot, the temporary file is gone, and no other path changes |
| Storage.CrashBeforeRename | src/storage.js:108-110 | a crash between writing the temporary file and renaming it leaves the data file, and so the next read, as they were |
| Storage.WriteThenRead | src/storage.js:70-110 | a file write followed by a read returns the written store |
| Storage.RecoverFromCorruptFile | src/storage.js:76-110 | after a corrupt file reads as `{}`, a write followed by a read returns what was written |
| Storage.StorageBackend.constructor | src/storage.js:8-11 | the backend starts unconnected, with remote mode enabled exactly when a URI is set |
| Storage.StorageBackend.InitStorage | src/storage.js:13-43 | with no URI nothing changes; otherwise the backend ends connected exactly when the connection attempt succeeds |
| Storage.StorageBackend.EnsureDataFile | src/storage.js:45-53 | the filesystem becomes `Ensured` of the old one |
| Storage.StorageBackend.ReadStore | src/storage.js:55-89 | in remote mode it returns the fold of the documents and touches no file; in file mode it returns what `ReadFile` returns and leaves its filesystem |
| Storage.StorageBackend.WriteStore | src/storage.js:91-111 | in remote mode one bulk write of `WriteOperations(store)`, or none for an empty store, with no file touched; in file mode the filesystem becomes `WriteFile` of the old one |
| Commands.UserVault | src/commands.js:10-19 | the result is a vault; a user's vault is kept as it is; a falsy entry becomes `{secrets: {}}`; an entry whose `secrets` is falsy or not an object gets `{}`, keeping its other fields and its default |
| Commands.UserVaultIdempotent | src/commands.js:10-19 | repairing a repaired vault changes nothing, and a consistent store yields a vault whose default is valid |
| Commands.StoreVault | src/commands.js:17 | storing a vault keeps the store well shaped, and keeps it consistent when the vault's default is valid |
| Commands.ConsistentIsWellShaped | src/commands.js:10-19 | a consistent store is one the handlers can work on |
| Commands.SaveRefusal | src/commands.js:71-86 | a save is refused, in this order, for an invalid label, a non-Base32 secret, or a secret the generator throws on, and goes ahead exactly when none of these holds |
| Commands.HasLabel | src/commands.js:144 | with own-property reads, a label passes the check only when it has a stored secret |
| Commands.SaveInto | src/commands.js:88-91 | the label's secret becomes the stored value and no other label changes; an existing default is kept and a missing one becomes the label; other fields are kept; a valid default stays valid |
| Commands.SaveStoresSecret | src/commands.js:88-91 | the save always stores the secret under its label, and the first save leaves a valid default |
| Commands.RemainingPick | src/commands.js:131-132 | a pick of the remaining keys, none exactly when none remain, is a valid `rest[0]` |
| Commands.RemoveFrom | src/commands.js:128-133 | exactly the label is deleted; a default naming it moves to the pick (null when none remains or the pick is "") and any other default is kept; other fields are kept; the result's default is valid when it moved, and valid when it was valid before |
| Commands.RemoveLeavesNoDangling | src/commands.js:128-133 | after a remove the label is gone and the default does not name it |
| Commands.SetDefaultIn | src/commands.js:149 | the default becomes the label, with secrets and other fields kept, and it is valid when the label has a secret |
| Commands.SetDefaultKeepsInvariant | src/commands.js:144-149 | a set-default accepted by an own-property check keeps the default valid |
| Commands.SelectSecret | src/commands.js:160-194 | a non-empty manual secret that is not Base32 is refused as invalid, one the generator throws on is refused as rejected, and otherwise it is used; without one, a named label is used exactly when its entry decrypts and a failed decrypt is refused; without a label, a truthy default is used exactly when its entry decrypts, with the default as the source, and a failed decrypt is refused as a default failure; with none of these nothing is selected |
| Commands.Finish | src/commands.js:196-214 | a refusal is passed on; a falsy secret is "not found"; for a truthy one, a generator that throws escapes, a six-digit code is shown with its source, and any other code is refused; a code is shown only in that case |
| Commands.CodeReply | src/commands.js:154-214 | a shown code is always six digits; a manual-secret code is what the generator gives for the normalised secret; a label code names the normalised label |
| Commands.ManualSecretWins | src/commands.js:163-177 | with a non-empty manual secret, the reply depends on neither the vault nor the label |
| Commands.LabelBeatsDefault | src/commands.js:178-185 | with no manual secret and a label, the default label plays no part |
| Commands.NoSourceNotFound | src/commands.js:186-201 | with no secret, no label and no default, the reply is "not found" |
| Commands.Base32IsNotEnvelope | src/commands.js:76-88 | a valid Base32 secret never looks like an envelope, so passthrough storage of it decrypts back |
| Commands.SaveThenCodeByLabel | src/commands.js:88-214 | after a save, a code request for that label generates from the same secret, in both codec modes |
| Commands.FirstSaveServesDefaultCode | src/commands.js:89-214 | the first save into a vault without a default serves a later code request that gives no options |
| Commands.MissingLabelNotFound | src/commands.js:178-201 | with own-property reads, a code request for a valid label with no stored secret finds no secret |
| Commands.RemovedLabelNotFound | src/commands.js:128-201 | after a remove, a code request for that label finds no secret; the code as written agrees unless the label is `constructor` or `__proto__` |
| Commands.FirstKey | src/commands.js:131-132 | `Object.keys(...)[0]` is a key of the map, and is none exactly when the map is empty |
| Commands.Handlers.constructor | src/commands.js:64 | the handlers start from the given store with nothing written |
| Commands.Handlers.GetUserVault | src/commands.js:10-19 | the user's entry becomes `UserVault` of the old store, no other entry changes, and consistency is kept |
| Commands.Handlers.Commit | src/commands.js:93 | the user's entry becomes the updated vault and the whole store is written exactly once |
| Commands.Handlers.HandleSave | src/commands.js:65-99 | a refused save writes nothing and only repairs the vault; an accepted save stores `SaveInto` of the repaired vault with the encrypted secret, writes once, and replies with the label and the encryption flag; consistency is kept |
| Commands.Handlers.HandleList | src/commands.js:101-116 | "no secrets" for an empty vault, otherwise its labels and its default if truthy; nothing is written |
| Commands.Handlers.HandleRemove | src/commands.js:118-137 | a label with no truthy secret is reported missing and nothing is written; otherwise the entry becomes `RemoveFrom` the vault for some valid pick, and the store is written once; consistency is kept |
| Commands.Handlers.HandleSetDefault | src/commands.js:139-152 | a label with no truthy secret is reported missing and nothing is written; otherwise the entry becomes `SetDefaultIn` and the store is written once; consistency is kept |
| Commands.Handlers.HandleCode | src/commands.js:154-215 | the reply is the selection-then-generation reply for the repaired vault, and nothing is written |
| Commands.Handlers.HandleStatus | src/commands.js:217-226 | the reply holds the number of labels, the default if truthy, and the encryption flag; nothing is written |
| Commands.ConstructorIsLabel | src/commands.js:142 | `constructor` is a valid label and normalises to itself |
| Commands.ProtoIsLabel | src/commands.js:68 | `__proto__` is a valid label and normalises to itself |
| Commands.LookupAsWritten | src/commands.js:144 | `secrets[label]` reads an own property first, and an inherited prototype member is truthy |
| Commands.InheritedLabelsAreLabels | src/commands.js:68 | both inherited names are valid labels that normalise to themselves |
| Commands.LookupAgrees | src/commands.js:123 | for an own property, or a name that is not inherited, the read as written is the own-property read |
| Commands.InheritedView | src/commands.js:181-189 | the secrets as the code's reads see them: the own properties plus the two inherited names, each read as written |
| Commands.InheritedViewAgrees | src/commands.js:181-189 | every read of that view is the read as written |
| Commands.RemoveAsWritten | src/commands.js:123-133 | as written, remove goes ahead exactly when the prototype-reaching read is truthy, which off the inherited names is the own-property check, and then applies `RemoveFrom` |
| Commands.RemoveMissingAcceptedAsWritten | src/commands.js:123-136 | as written, `constructor` on an empty vault has no stored secret, yet the remove goes ahead and leaves the secrets as they were |
| Commands.RemoveRemovesOne | src/commands.js:123-128 | with own-property reads, a remove that goes ahead deletes exactly one stored secret |
| Commands.CodeReplyAsWritten | src/commands.js:154-214 | the code reply as written is the reply over the vault's secrets as its reads see them |
| Commands.CodeInheritedAsWritten | src/commands.js:178-204 | as written, an inherited name with no own secret hands the inherited member to the generator, so the reply is never "not found" |
| Commands.InheritedSelectedAsWritten | src/commands.js:178-185 | as written, the selection for an inherited name with no own secret picks the inherited member |
| Commands.CodeAgreesOffInherited | src/commands.js:154-214 | on a vault with a valid default and for a label that is not inherited, the code as written replies as the own-property model |
| Commands.SetDefaultAsWritten | src/commands.js:144-149 | as written, set-default goes ahead exactly when the prototype-reaching read is truthy, which off the inherited names is the own-property check |
| Commands.SetDefaultDanglingAsWritten | src/commands.js:144-149 | as written, `constructor` is accepted on an empty vault and leaves a default that names no secret |
| Commands.AssignSecretAsWritten | src/commands.js:88 | as written, assigning a string to `secrets.__proto__` with no own property of that name leaves `secrets` unchanged |
| Commands.SaveIntoAsWritten | src/commands.js:88-91 | the save mutation as written still sets a missing default to the label, and for any label but `__proto__` it is `SaveInto` |
| Commands.SaveProtoLostAsWritten | src/commands.js:88-91 | as written, saving under `__proto__` into an empty vault stores nothing yet leaves `__proto__` as the default |
| LegacyBot.SetupStep | src/bot.js:74-79 | setup replaces the whole entry with a pending secret and no enabled one, changes no other user, and keeps every user's secrets exclusive |
| LegacyBot.VerifyStep | src/bot.js:121-152 | with no pending secret, or with a rejected code, nothing changes; otherwise the pending secret is promoted and cleared, other fields and users are kept, the user reads as enabled, and exclusivity is kept |
| LegacyBot.DisableStep | src/bot.js:173-205 | "already disabled" exactly when not enabled, "rejected" exactly when the code fails against the enabled secret, and then nothing changes; otherwise both secrets become null, and exclusivity is kept |
| LegacyBot.SetupThenVerifyEnables | src/bot.js:74-152 | a setup followed by an accepted code enables exactly the new secret |
| LegacyBot.VerifyIsOneShot | src/bot.js:125-149 | after a successful verify, verifying again asks for a new setup |
| LegacyBot.DisableThenStatus | src/bot.js:160-205 | after an accepted disable the status is "disabled", and verify asks for a new setup |
| LegacyBot.Bot.constructor | src/bot.js:228 | the handlers start from the store that was read, with nothing written |
| LegacyBot.Bot.HandleSetup | src/bot.js:64-119 | the store becomes `SetupStep` of the old one and is written once, before the DM; the reply depends only on whether the DM is delivered |
| LegacyBot.Bot.HandleVerify | src/bot.js:121-158 | reply and store are those of `VerifyStep`; one write exactly on success; exclusivity is kept |
| LegacyBot.Bot.HandleStatus | src/bot.js:160-171 | "enabled" exactly when the user's entry is truthy and its `enabledSecret` is truthy |
| LegacyBot.Bot.HandleDisable | src/bot.js:173-211 | reply and store are those of `DisableStep`; one write exactly on success; exclusivity is kept |

## Left out

- Discord transport is not modelled. That covers slash-command registration, reply text, ephemeral flags, the client event loop and the catch-all reply of `src/bot.js`. Replies are outcome tags.
- TOTP generation (`src/totp.js`) and speakeasy's verification are foreign libraries. They are oracles: a generator that may throw (`None`) and a boolean verifier.
- The cryptographic primitives are abstract functions: AES-256-GCM, SHA-256, `randomBytes` and Base64. The model proves neither confidentiality nor IV uniqueness.
- The MongoDB client is not modelled. That covers the connection options, index creation, and how `bulkWrite` executes or partially fails. Only the success of the connection attempt and the operations sent are modelled.
- JSON formatting is an abstract pair of stringify and parse.
- QR rendering, the attachment file and the setup DM are I/O. They enter only as a flag that picks the setup reply.
- Clock values are parameters, and logging is left out.
- `src/config.js` only reads environment variables and is not part of this model.
- Concurrent interactions, and the lost updates between their read-modify-write cycles, are not modelled. Each handler runs one sequential cycle on one store.
- The legacy `readStore`, `ensureDataFile` and `writeStore` of `src/bot.js` (lines 22-35) are not modelled; `LegacyBot.Bot` only records each store it writes. They differ from the file mode of `src/storage.js`:
  - the legacy `ensureDataFile` does not create the data directory;
  - the legacy `readStore` has no backup and no reset: a file that does not parse makes it throw, and the call at `src/bot.js:228` is outside the `try`, so the interaction fails;
  - the legacy `writeStore` writes the data file directly, with no temporary file and rename.
- Case mapping and whitespace follow ASCII letters and the ECMAScript whitespace set. Unicode case mapping beyond ASCII is not modelled.
- Numbers are integers. Floating point is not modelled.
- Key order of objects is not kept, because objects are maps:
  - `/auth-list` returns its labels as a set, not sorted;
  - `Commands.Handlers.HandleRemove`: the new default is some remaining label. JavaScript's own key order (integer-like keys first, then insertion order) is not modelled.
- Commands.Handlers.HandleSave: the handlers require a well-shaped store, in which every entry is falsy or an object whose `secrets` is not an array. This is because the model cannot represent other entries:
  - in JavaScript, a string or number entry makes the mutating handlers throw;
  - an array can carry an own `secrets` property, which `Js.Value` cannot express.
  The same requirement applies to the other handlers. They also take the store to be an object (a `map`): `Storage.StorageBackend.ReadStore` can return an array, from a data file that holds `[]`, and the handlers are not modelled on such a store.
- HandleSave (`Commands.Handlers.HandleSave`): the command layer reads and writes `secrets[label]` as an own property. In the source, saving under `__proto__` with no own property of that name calls the prototype setter, which ignores the string: nothing is stored, yet the default becomes `__proto__`. `Commands.SaveIntoAsWritten` models that write, and the second row under Findings records it.
- HandleRemove (`Commands.Handlers.HandleRemove`): own-property semantics again. In the source, `constructor` or `__proto__` with no own secret passes the check through the prototype, the `delete` does nothing, the store is written and the reply is "removed". `Commands.RemoveAsWritten` models that, and the third row under Findings records it.
- HandleSetDefault (`Commands.Handlers.HandleSetDefault`): own-property semantics again. In the source, `constructor` or `__proto__` with no own secret is accepted and becomes a default that names no secret. `Commands.SetDefaultAsWritten` models that, and the first row under Findings records it.
- HandleCode (`Commands.Handlers.HandleCode`): own-property semantics again, through `Commands.SelectSecret`. In the source, a label or default of `constructor` or `__proto__` with no own secret reads the inherited member (the `Object` function or `Object.prototype`). `decryptSecret` passes it through, and it reaches `generateTotp` in place of a "not found" reply. `Commands.CodeReplyAsWritten` models that, and the fourth row under Findings records it.
- SelectSecret (`Commands.SelectSecret`): its label and default reads are own-property reads. The behaviour for inherited names is the one just described for `HandleCode`.
- RemovedLabelNotFound (`Commands.RemovedLabelNotFound`): its first promise holds for the own-property model. For the code as written it is stated only for labels other than `constructor` and `__proto__`, which the source finds through the prototype (fourth row under Findings).
- Commands.Handlers.HandleCode: if the final code generation throws, the exception escapes the handler. It is modelled as the reply `GeneratorThrew`. The manual secret is generated twice, and the model takes both calls to give the same result; a clock tick between the two calls is not modelled.
- Storage.StorageBackend.InitStorage: `initStorage` makes one connection attempt; there is no retry with the opposite TLS mode.
- Security.Decrypt: in passthrough mode, a stored plaintext that starts with `enc:v1:` raises rather than passing through. This follows the code, and `Security.PassthroughPrefixedPlaintext` exhibits it.
- Storage.ReadCorruptFile: a backup copy that fails is swallowed. The original text is then lost when the file is reset, so the model states the backup only under `copySucceeds`.
- Storage.RemoteRoundTrip: the round trip needs entries whose data are objects with no `userId` or `_id` of their own, and whose id is non-empty. `Storage.OwnUserIdRedirects` shows an entry that breaks it.

## Findings

| source | as written | input that shows it | evidently intended | confidence | as-written member | corrected member |
|---|---|---|---|---|---|---|
| src/commands.js:144-149 | `if (!userData.secrets[label])` reads through the prototype chain, so the inherited member `secrets.constructor` counts as a saved secret | `/auth-set-default label:constructor` on a user with no secrets: it replies that the default is set, and leaves `defaultLabel` naming no secret | only labels with an own stored secret can become the default | not executed | Commands.SetDefaultDanglingAsWritten | Commands.SetDefaultKeepsInvariant |
| src/commands.js:88-91 | `userData.secrets[label] = stored` with `label` = `__proto__` calls the prototype setter, which ignores a string, yet the default is still set to the label | `/auth-save label:__proto__ secret:JBSWY3DP` on a new user: it replies "saved", stores no secret, and sets `defaultLabel` to `__proto__` | every accepted save stores the secret under its label | not executed | Commands.SaveProtoLostAsWritten | Commands.SaveStoresSecret |
| src/commands.js:123-136 | `if (!userData.secrets[label])` reads through the prototype chain, and `delete` of an inherited name does nothing | `/auth-remove label:constructor` on a user with no secrets: it writes the store and replies "removed", though nothing was removed | a label with no own stored secret is reported as not found and nothing is written | not executed | Commands.RemoveMissingAcceptedAsWritten | Commands.RemoveRemovesOne |
| src/commands.js:178-204 | `decryptSecret(userData.secrets[label])` reads through the prototype chain, and a non-string passes through `decryptSecret` | `/auth-code label:constructor` on a user with no secrets: the `Object` function is handed to `generateTotp` instead of replying "not found" | a label with no own stored secret yields "not found" | not executed | Commands.CodeInheritedAsWritten | Commands.MissingLabelNotFound |
