# AccountService of the gifter wallet extension, modelled in Dafny

`AccountService` (src/app/shared/services/account.service.ts) is the account
layer of a browser-extension wallet. It creates and unlocks an encrypted key
vault through a keyring controller. It persists the session in one of two
storage backends: the extension's asynchronous `storage.local`, or the page's
`localStorage` when there is no extension storage. It publishes the user name,
the e-mail and the vault state on three replay-latest channels (`USER`, `EMAIL`,
`KEY`). It also has the engine sign authorization messages and transactions
with the first unlocked account.

The model is one class, `Accounts.AccountService`, plus the pure parts in their
own modules:

- `Outcomes`: `undefined`-able values, outcomes of collaborator calls, and how a
  returned promise settles (`Resolved`, `Rejected`, or `Pending`, which means it
  never settles).
- `JsString`: JavaScript's `substr`, clipped at the end of the string.
- `Signing`: the two-stage authorization digest and the split of the
  engine's hex signature into `[v, r, s]`. The digest is keccak over the
  tightly packed bytes of `soliditySha3`'s arguments. The split has an
  inverse (`JoinFields`), and round-trip lemmas go both ways.
- `Session`: the three channels and a ghost log of storage writes and
  publications. The ordering rule "publish only what was written before" is
  a predicate on that log, and lemmas say how each step keeps it.
- `Accounts`: the service's fields (`keyringController`, `keyring`,
  `keyringState`, `accounts`, `user`, `email`, `accountState`, the storage
  contents) and its operations. `Valid()` ties the storage contents and the
  channels to the log.

Each operation runs its steps one after another, in source order. The answers
of the keyring controller, web3 and the storage API are inputs: an outcome
parameter (`Ok`/`Err`, `Pass`/`Fail`) or a function parameter (web3's
per-argument encoding and keccak, `signMessage`, `signTransaction`,
`getKeyringsByType`). A property read on a controller or account list that is
still `undefined` throws a `TypeError`. Inside an `async` method or a promise
executor, that throw rejects the returned promise (`Rejected(TypeError)`).
`signTransaction` (lines 211-214) is neither, so there the call itself throws
(`Threw(TypeError)`) and no promise is returned.

Behaviour of the code worth knowing, which the model follows:

- The constructor (lines 64-76) loads the stored state, builds the controller
  and sets the `user` and `email` fields. It does not publish them on the
  channels.
- The `KEY` channel's write (line 86) stores the keyring state object under
  that object's own keys (for example `vault`). Nothing is written under a
  key named `KEY`.
- `createAccount` only logs a failed storage write (lines 88, 92, 96). It
  resolves all the same, and the matching channel keeps its old value.
- With `localStorage`, `createAccount`'s three writes all complete before the
  first `.then` callback publishes (lines 86-96). With the extension storage,
  each write's callback and its publication run before the next write's
  callback.
- In source order (the storage callback before the `getAccounts` callback;
  see "Asynchronous scheduling" under "## Left out"), `login` rejects when
  the write of the keyring state fails (line 111), and still sets `accounts`
  afterwards (line 115). A failed `getAccounts` is never handled (lines
  114-118), so after a successful write `login` then never settles.
- `login` stores the promise chained on `unlockKeyrings` in `keyring` (line
  105).
- Nothing serializes concurrent `createAccount`/`login` calls. Nothing checks
  that the vault is unlocked before signing (lines 199, 213); that is left to
  the engine.
- In `getMnemonic`, the rejection for a missing HD keyring is not followed by
  a `return` (lines 219-222). The `TypeError` that follows is swallowed
  because the promise has already settled, so the model just rejects.

## Model

| member | source | states |
|---|---|---|
| `JsString.Substr` | src/app/shared/services/account.service.ts:202-204 | `substr(start, length)` has `min(length, |s| - start)` characters (none when `start` is past the end), and each is the character of `s` at the same offset from `start` |
| `Signing.ValidationFields` | src/app/shared/services/account.service.ts:202-206 | the result has three fields in the order `[v, r, s]`; `r` is a prefix of the signature; `v` and `s` start with "0x"; for a signature of at least 132 characters, `|v| = 4` and `|r| = |s| = 66` |
| `Signing.FieldsOfFullSignature` | src/app/shared/services/account.service.ts:202-206 | for a 132-character signature, the fields are exactly `["0x" + sig[130..132], sig[..66], "0x" + sig[66..130]]` |
| `Signing.FieldsReassemble` | src/app/shared/services/account.service.ts:202-204 | `r + s[2..] + v[2..]` gives back the first `min(|sig|, 132)` characters of the signature, which is the whole signature when it has 132 characters |
| `Signing.JoinFields` | src/app/shared/services/account.service.ts:202-204 | joining well-formed fields (the inverse of the split) gives a 132-character signature |
| `Signing.FieldsOfJoined` | src/app/shared/services/account.service.ts:202-206 | splitting the joined signature of well-formed fields gives back `[v, r, s]`; with `FieldsReassemble`, the two directions of the round trip |
| `Signing.PackedHash` | src/app/shared/services/account.service.ts:189 | the first-stage digest is keccak of the encodings of address `a`, address `b` and the `uint` nonce, concatenated in that order with nothing between them |
| `Signing.AuthorizationDigest` | src/app/shared/services/account.service.ts:190 | the second-stage digest is keccak of the 28 bytes of "\x19Ethereum Signed Message:\n32" followed by the bytes of the first-stage digest as web3 re-encodes it |
| `Signing.DigestBindsInputs` | src/app/shared/services/account.service.ts:185-190 | if keccak has no collisions on byte strings, addresses pack to 20 bytes and nonces to 32, and distinct first-stage digests re-encode to distinct bytes, then two authorization digests are equal if and only if `a`, `b` and `nonce` each encode to the same bytes as their counterparts |
| `Signing.PackTwo` | src/app/shared/services/account.service.ts:190 | `soliditySha3(prefix, hash1)` hashes the two encodings one after another, with nothing between them |
| `Signing.PackThree` | src/app/shared/services/account.service.ts:189 | `soliditySha3(aObj, bObj, nonceObj)` hashes the three encodings one after another, with nothing between them (tight packing) |
| `Signing.SignedPreimageStartsWithPrefix` | src/app/shared/services/account.service.ts:189-190 | whatever `a`, `b` and `nonce` are, the bytes hashed in the second stage start with the 28 bytes of the prefix "\x19Ethereum Signed Message:\n32" |
| `Signing.DigestIsDomainSeparated` | src/app/shared/services/account.service.ts:189-190 | if keccak has no collisions on byte strings, the keccak hash of any byte string that does not start with the 28 bytes of "\x19Ethereum Signed Message:\n32" (a raw transaction, say) differs from every authorization digest |
| `Session.LatestPublishedIsLast` | src/app/shared/services/account.service.ts:30-34 | the value a channel replays (`LatestPublished`) is `None`, its initial `null`, exactly when nothing was ever published on it; otherwise it is the payload of a publication on that channel with no later publication on it |
| `Session.StoringKeepsChannels` | src/app/shared/services/account.service.ts:154-177 | a storage write does not change the value of any channel |
| `Session.PublishingSetsChannel` | src/app/shared/services/account.service.ts:30-34 | `next(p)` on a channel makes `p` the value it replays, and leaves the other channels as they were |
| `Session.PrefixKeepsOrder` | src/app/shared/services/account.service.ts:86-96 | every prefix of a log in write-then-publish order is itself in that order, so the order holds at every moment of a run |
| `Session.ReplayStep` | src/app/shared/services/account.service.ts:154-177 | replaying one more logged effect lays a write's entries over the storage contents and leaves them as they were for a publication |
| `Session.StoringKeepsOrder` | src/app/shared/services/account.service.ts:86-96 | appending a storage write keeps the write-then-publish order (every publication has an earlier write of exactly what it publishes) |
| `Session.PublishingKeepsOrder` | src/app/shared/services/account.service.ts:86-96 | appending a publication keeps the write-then-publish order if and only if the log already holds the write of exactly what is published |
| `Session.LatestPublishedWasStored` | src/app/shared/services/account.service.ts:86-96 | whatever value a channel holds was published after a successful write of its storage entries (`{USER: name}`, `{EMAIL: address}`, or the keyring state object): the log holds that write, then that publication |
| `Accounts.AccountService.constructor` | src/app/shared/services/account.service.ts:61-76 | the channels start at `null` and `accounts` is undefined; if the last state loads, the controller is built from it and `user`/`email` take its USER/EMAIL entries; if the load fails, the controller, `user` and `email` stay undefined |
| `Accounts.AccountService.LoadLastState` | src/app/shared/services/account.service.ts:128-151 | resolves with the whole storage contents unless the extension API reports `lastError`, in which case it rejects with that error; the fallback backend always resolves |
| `Accounts.AccountService.SetItems` | src/app/shared/services/account.service.ts:159-161 | the `setItem` loop over the keys of `state` leaves storage equal to the old contents overwritten by `state` |
| `Accounts.AccountService.WriteStorage` | src/app/shared/services/account.service.ts:154-177 | the fallback backend always resolves: each key of `state` afterwards maps to `state[k]`, and every other key is unchanged, present or absent. The extension backend does the same when it succeeds; on `lastError` it rejects with that error and storage is unchanged |
| `Accounts.AccountService.SetState` | src/app/shared/services/account.service.ts:154-177 | the call resolves exactly when the storage call succeeds, else rejects with `lastError`; storage becomes the old contents merged with `state` on success and is unchanged otherwise; only a successful write is recorded in the effect log, the channels are untouched, and `Valid()` (storage is the baseline with the logged writes replayed) is kept |
| `Accounts.AccountService.Publish` | src/app/shared/services/account.service.ts:86-96 | publishing `p` on a channel, allowed only once the write of `p`'s entries is in the log, sets that channel, appends the publication to the log and keeps `Valid()` (storage is the baseline with the logged writes replayed, and the order holds) |
| `Accounts.AccountService.WriteThenPublishOn` | src/app/shared/services/account.service.ts:109-112 | a channel is published exactly when its write resolved, right after that write; a failed write leaves storage, the log and the channel unchanged |
| `Accounts.AccountService.StoreCreatedAccount` | src/app/shared/services/account.service.ts:86-96 | the three writes apply in order; each channel becomes its written value exactly when its write succeeded; the log grows by the effects in the order the backend runs the callbacks (interleaved with the extension storage, all writes first with `localStorage`) |
| `Accounts.AccountService.WriteAllThenPublish` | src/app/shared/services/account.service.ts:86-96 | with `localStorage`, the keyring state, `{USER: username}` and `{EMAIL: email}` are all written, and only then are `KEY`, `USER` and `EMAIL` published, in that order; storage and the channels end with those values |
| `Accounts.AccountService.WriteEachThenPublish` | src/app/shared/services/account.service.ts:86-96 | with the extension storage, each write is followed by its publication before the next write: storage gets the three writes that succeed, each channel takes its written value exactly when its write succeeded, and the log grows by write-publication pairs for those writes, in order |
| `Accounts.AccountService.CreateAccount` | src/app/shared/services/account.service.ts:80-97 | with no controller, a TypeError; a vault-creation failure rejects with that error and changes nothing; otherwise `keyring` and `keyringState` are set, the three writes apply in order, each of `KEY`, `USER` and `EMAIL` becomes the written value exactly when its own write succeeded (else it keeps its old value), the log records writes and publications in the backend's callback order, and the call resolves; `accounts` and the ghost baseline are untouched |
| `Accounts.AccountService.Login` | src/app/shared/services/account.service.ts:102-125 | a failed unlock rejects with the engine's error and leaves `accounts`, storage, the log and the channels unchanged; after a successful unlock, `accounts` becomes the engine's list when `getAccounts` succeeds, `KEY` is published when the write succeeded, the log grows by exactly that write and publication, and the call resolves, rejects with the write error, or never settles; the ghost baseline is untouched |
| `Accounts.AccountService.GetValidationArgs` | src/app/shared/services/account.service.ts:184-209 | the engine is asked to sign, from `accounts[0]`, the digest `H(prefix, H(a, b, nonce))`; the call resolves exactly when signing succeeds, with the signature's `[v, r, s]`; a signing failure rejects with "error signing message: " followed by the error, and yields no fields |
| `Accounts.AccountService.SignTransaction` | src/app/shared/services/account.service.ts:211-214 | the call throws a TypeError synchronously exactly when `accounts` or the controller is undefined, and returns no promise then; otherwise it returns the engine's signing promise for the transaction and `accounts[0]` |
| `Accounts.AccountService.GetMnemonic` | src/app/shared/services/account.service.ts:216-226 | with no "HD Key Tree" keyring, rejects with "Couldn't find an HD key tree"; otherwise resolves with the `mnemonic` entry of the first such keyring's serialization, or rejects with the serialization error |
| `Accounts.LoginTwiceScenario` | src/app/shared/services/account.service.ts:80-125 | after `createAccount` and a successful `login`, a `login` with a wrong password rejects with the engine's error, and the active address is still the first one of the successful login |

## Left out

- The `chrome.runtime` listeners registered in the constructor (lines 39-59).
  They only log and send a fixed reply.
- The web3 HTTP provider (line 19), and `createTransactionObject` with
  `EthereumTx` (179-181). These are thin wrappers over libraries.
- The internals of `soliditySha3`/Keccak, elliptic-curve signing and the
  controller's vault encryption. The hash and the signers are function
  parameters. The engine's result for a given password is an outcome
  parameter, so the password itself does not appear.
- Signing.DigestBindsInputs: binding is stated on the bytes web3 encodes
  each input to, not on the input values. web3's per-argument encoding and
  keccak are parameters, and the lemma assumes what a real hash is not proved
  to have: no collisions on byte strings, and distinct first-stage digests
  re-encoding to distinct bytes. The throw of web3 on an invalid address or a
  nonce of 2^256 or more is not modelled.
- `keyringController.fullUpdate()` in `login` (line 107) and the `bind` call in
  the constructor (line 73). Their effects stay inside the engine.
- The unused field `key` (line 25), all commented-out code (16, 229-314),
  console output, and src/app/app.module.ts, which only wires Angular modules.
- Asynchronous scheduling. Each operation runs in source order, so in `login`
  the storage-write callback comes before the `getAccounts` callback. In the
  real code, which one settles the promise first depends on timing: with the
  extension storage, a `getAccounts` that settles first resolves `login`, and
  a later failed write's rejection is then ignored. The
  constructor's load also completes before the constructor returns. In
  `createAccount` the model fixes one order per backend; it assumes the
  extension calls back in the order of the writes.
- Session.WriteThenPublish: the rule only asks for an earlier write of what
  is published, not one immediately before. A later write may have
  overwritten those storage keys by the time of the publication (a keyring
  state object with a `USER` key, say); the code publishes all the same.
- Storage values are strings. The extension backend can store any JSON value,
  and `localStorage.setItem` turns its argument into a string.
- Accounts.AccountService.SetState: a `setItem` that throws (for example when
  the storage quota is exceeded) is not modelled. Such a throw would leave
  earlier keys written and reject the call.
- Accounts.AccountService.constructor: the fallback backend resolves with the
  live `localStorage` object. The model takes a snapshot of its contents.
- Keys of `localStorage` that clash with its own method names are not
  modelled, and neither are writes to the backends by other code.
