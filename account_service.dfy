/** `AccountService`: the wallet's vault lifecycle, its storage adapter, its
    session channels and its signing entry points. Calls into the keyring
    controller, web3 and the browser storage API are not modelled; what they
    answer is passed in, as an outcome or as a function, and each operation
    runs its steps one after another: in source order, with each callback
    where the storage backend runs it. */
module Accounts {
  import opened Outcomes
  import opened JsString
  import opened Signing
  import opened Session

  /** A state object of the keyring controller (`store.getState()` and the
      like), a JSON object with string values. */
  type EngineState = map<string, string>

  /** The keyring controller once the constructor has built it from the
      loaded state. */
  datatype KeyringController = KeyringController(initState: map<string, string>)

  /** What the `keyring` field holds: nothing yet, what
      `createNewVaultAndKeychain` resolved with, or the promise chained on
      `unlockKeyrings` (which `login` stores there). */
  datatype KeyringRef = Unset | Keychain(vault: EngineState) | UnlockInProgress

  /** The `{from, data}` argument of the engine's `signMessage`. */
  datatype SignRequest = SignRequest(from: Option<string>, data: string)

  /** A keyring as `getKeyringsByType` hands it out, known here by what its
      `serialize()` settles with. */
  datatype Keyring = Keyring(serialization: Result<EngineState>)

  const HdKeyTree: string := "HD Key Tree"
  const NoHdKeyTree: string := "Couldn't find an HD key tree"
  const SigningErrorPrefix: string := "error signing message: "

  class AccountService {
    /** Whether `extension.storage` exists: the storage API is then the
        extension's asynchronous one, otherwise the page's `localStorage`. */
    const extensionStorage: bool
    /** The contents of whichever storage backend is in use. */
    var storage: map<string, string>

    var keyringController: Option<KeyringController>
    var keyring: KeyringRef
    var keyringState: Option<EngineState>
    var accounts: Option<seq<string>>
    var user: Option<string>
    var email: Option<string>
    /** The current values of the USER, EMAIL and KEY channels; a channel
        outside the map still holds its initial `null`. */
    var accountState: map<Channel, Payload>
    /** Every successful storage write and every publication, in order. */
    ghost var effects: seq<Effect>
    /** The storage contents when the service was built, before any logged
        write. */
    ghost var baseline: map<string, string>

    /** The value channel `ch` replays to a new subscriber. */
    function Current(ch: Channel): Option<Payload>
      reads this
    {
      if ch in accountState then Some(accountState[ch]) else None
    }

    /** Object invariant: storage holds the baseline overwritten by the
        logged writes, channels publish only what was written first, and each
        holds the latest value published on it. */
    ghost predicate Valid()
      reads this
    {
      && storage == Replay(baseline, effects)
      && WriteThenPublish(effects)
      && Current(USER) == LatestPublished(effects, USER)
      && Current(EMAIL) == LatestPublished(effects, EMAIL)
      && Current(KEY) == LatestPublished(effects, KEY)
    }

    /** Whether a storage call reports success: the `localStorage` fallback
        has no error channel, the extension API fails when it sets
        `runtime.lastError`. */
    predicate StorageSucceeds(lastError: Outcome)
    {
      !extensionStorage || lastError.Pass?
    }

    /** The storage after `setState(entries)` whose storage call ends with
        `lastError`. */
    function AfterWrite(store: map<string, string>, entries: map<string, string>, lastError: Outcome): map<string, string>
    {
      if StorageSucceeds(lastError) then store + entries else store
    }

    /** The constructor: the storage backend holds `persisted`; the last
        state is loaded (the extension's `get` ending with `lastError`) and,
        once loaded, builds the keyring controller and sets `user` and
        `email` from its USER and EMAIL entries. A failed load is only
        logged. The runtime message listeners are not modelled. */
    constructor (extensionStorage: bool, persisted: map<string, string>, lastError: Outcome)
      ensures Valid()
      ensures this.extensionStorage == extensionStorage && storage == persisted
      ensures effects == [] && baseline == persisted && accountState == map[]
      ensures keyring == Unset && keyringState == None && accounts == None
      ensures keyringController
           == if StorageSucceeds(lastError) then Some(KeyringController(persisted)) else None
      ensures user == (if StorageSucceeds(lastError) then Lookup(persisted, "USER") else None)
      ensures email == (if StorageSucceeds(lastError) then Lookup(persisted, "EMAIL") else None)
    {
      this.extensionStorage := extensionStorage;
      storage := persisted;
      keyringController := None;
      keyring := Unset;
      keyringState := None;
      accounts := None;
      user := None;
      email := None;
      accountState := map[];
      effects := [];
      baseline := persisted;
      new;
      var loaded := LoadLastState(lastError);
      if loaded.Resolved? {
        var data := loaded.value;
        keyringController := Some(KeyringController(data));
        user := Lookup(data, "USER");
        email := Lookup(data, "EMAIL");
      }
    }

    /** `loadLastState`: resolves with everything in storage, unless the
        extension API reports `lastError`, which it then rejects with. */
    function LoadLastState(lastError: Outcome): (r: Settlement<map<string, string>>)
      reads this
      ensures r.Resolved? <==> StorageSucceeds(lastError)
      ensures r.Resolved? ==> r.value == storage
      ensures !r.Resolved? ==> r == Rejected(Text(lastError.error))
    {
      if !extensionStorage then Resolved(storage)
      else if lastError.Fail? then Rejected(Text(lastError.error))
      else Resolved(storage)
    }

    /** The `localStorage` branch of `setState`: `setItem(key, state[key])`
        for each key of `state`, one at a time. Afterwards every key of
        `state` maps to its value and every other key is as it was. */
    method SetItems(state: map<string, string>)
      modifies this`storage
      ensures storage == old(storage) + state
    {
      var pending := state.Keys;
      while pending != {}
        invariant pending <= state.Keys
        invariant storage == old(storage) + map k | k in state.Keys - pending :: state[k]
        decreases pending
      {
        var key :| key in pending;
        storage := storage[key := state[key]];
        pending := pending - {key};
      }
      assert (map k | k in state.Keys - {} :: state[k]) == state;
    }

    /** The storage half of `setState`: without extension storage every
        key of `state` is written, one `setItem` at a time, and the call
        always resolves; with it, the whole object is handed to `set`,
        which either stores it or reports `lastError`. */
    method WriteStorage(state: map<string, string>, lastError: Outcome) returns (r: Settlement<()>)
      modifies this`storage
      ensures r == if StorageSucceeds(lastError) then Resolved(()) else Rejected(Text(lastError.error))
      ensures storage == AfterWrite(old(storage), state, lastError)
      ensures r.Resolved? ==> forall k :: k in state ==> k in storage && storage[k] == state[k]
      ensures forall k :: k !in state ==> (k in storage <==> k in old(storage))
      ensures forall k :: k !in state && k in storage ==> storage[k] == old(storage)[k]
    {
      if !extensionStorage {
        SetItems(state);
        r := Resolved(());
      } else if lastError.Fail? {
        r := Rejected(Text(lastError.error));
      } else {
        storage := storage + state;
        r := Resolved(());
      }
      MergeOverwrites(old(storage), state);
    }

    /** `setState(state)`: the storage write, and on success its entry in
        the log. */
    method SetState(state: map<string, string>, lastError: Outcome) returns (r: Settlement<()>)
      requires Valid()
      modifies this`storage, this`effects
      ensures Valid()
      ensures r == if StorageSucceeds(lastError) then Resolved(()) else Rejected(Text(lastError.error))
      ensures storage == AfterWrite(old(storage), state, lastError)
      ensures effects == old(effects) + if r.Resolved? then [Stored(state)] else []
    {
      r := WriteStorage(state, lastError);
      if r.Resolved? {
        forall ch: Channel
          ensures LatestPublished(effects + [Stored(state)], ch) == LatestPublished(effects, ch)
        {
          StoringKeepsChannels(effects, state, ch);
        }
        StoringKeepsOrder(effects, state);
        ReplayStep(baseline, effects, Stored(state));
        effects := effects + [Stored(state)];
      }
    }

    /** `accountState[ch].next(p)`, which the service only ever does in the
        callback of a write of `p`'s entries that resolved. */
    method Publish(ch: Channel, p: Payload)
      requires Valid()
      requires Stored(StorageEntries(ch, p)) in effects
      modifies this`accountState, this`effects
      ensures Valid()
      ensures accountState == old(accountState)[ch := p]
      ensures effects == old(effects) + [Published(ch, p)]
    {
      forall other: Channel
        ensures LatestPublished(effects + [Published(ch, p)], other)
             == if other == ch then Some(p) else LatestPublished(effects, other)
      {
        PublishingSetsChannel(effects, ch, p, other);
      }
      PublishingKeepsOrder(effects, ch, p);
      ReplayStep(baseline, effects, Published(ch, p));
      accountState := accountState[ch := p];
      effects := effects + [Published(ch, p)];
    }

    /** What `setState(StorageEntries(ch, p))` and its success callback
        add to the log when they run back to back: the write and the
        publication if the write resolved, nothing otherwise. */
    function WrittenThenPublished(ch: Channel, p: Payload, lastError: Outcome): seq<Effect>
    {
      if StorageSucceeds(lastError) then [Stored(StorageEntries(ch, p)), Published(ch, p)] else []
    }

    /** `setState` followed by publication on success, as `createAccount`
        and `login` do for each channel. */
    method WriteThenPublishOn(ch: Channel, p: Payload, lastError: Outcome) returns (r: Settlement<()>)
      requires Valid()
      modifies this`storage, this`effects, this`accountState
      ensures Valid()
      ensures r == if StorageSucceeds(lastError) then Resolved(()) else Rejected(Text(lastError.error))
      ensures storage == AfterWrite(old(storage), StorageEntries(ch, p), lastError)
      ensures accountState == if r.Resolved? then old(accountState)[ch := p] else old(accountState)
      ensures effects == old(effects) + WrittenThenPublished(ch, p, lastError)
    {
      r := SetState(StorageEntries(ch, p), lastError);
      if r.Resolved? {
        Publish(ch, p);
        AppendTwo(old(effects), Stored(StorageEntries(ch, p)), Published(ch, p));
      }
    }

    /** The log entries of `createAccount`'s three writes and their success
        callbacks, in the order they run. The extension's `set` calls back
        once per write, and each callback's `.then` publication runs before
        the next write's callback; `localStorage` writes synchronously, so
        all three writes happen before the first publication (all three
        always resolve there). */
    function CreationEffects(vaultState: EngineState, username: string, email: string,
                             keyWrite: Outcome, userWrite: Outcome, emailWrite: Outcome): seq<Effect>
    {
      if extensionStorage then
        WrittenThenPublished(KEY, Obj(vaultState), keyWrite)
        + WrittenThenPublished(USER, Str(username), userWrite)
        + WrittenThenPublished(EMAIL, Str(email), emailWrite)
      else
        [Stored(vaultState), Stored(map["USER" := username]), Stored(map["EMAIL" := email]),
         Published(KEY, Obj(vaultState)), Published(USER, Str(username)), Published(EMAIL, Str(email))]
    }

    /** The writes and publications of `createAccount` once the vault
        exists: the keyring state, `{USER: username}` and `{EMAIL: email}`
        are written in that order, and each channel is published in its
        write's success callback. */
    method StoreCreatedAccount(vaultState: EngineState, username: string, email: string,
                               keyWrite: Outcome, userWrite: Outcome, emailWrite: Outcome)
      requires Valid()
      modifies this`storage, this`effects, this`accountState
      ensures Valid()
      ensures storage == AfterWrite(AfterWrite(AfterWrite(old(storage), vaultState, keyWrite),
                                               map["USER" := username], userWrite),
                                    map["EMAIL" := email], emailWrite)
      ensures Current(KEY) == (if StorageSucceeds(keyWrite) then Some(Obj(vaultState)) else old(Current(KEY)))
      ensures Current(USER) == (if StorageSucceeds(userWrite) then Some(Str(username)) else old(Current(USER)))
      ensures Current(EMAIL) == (if StorageSucceeds(emailWrite) then Some(Str(email)) else old(Current(EMAIL)))
      ensures effects == old(effects) + CreationEffects(vaultState, username, email, keyWrite, userWrite, emailWrite)
    {
      if extensionStorage {
        WriteEachThenPublish(vaultState, username, email, keyWrite, userWrite, emailWrite);
      } else {
        WriteAllThenPublish(vaultState, username, email);
      }
    }

    /** The extension-storage order of `createAccount`'s effects: each
        write's callback, and the publication it triggers, run before the
        next write calls back. */
    method WriteEachThenPublish(vaultState: EngineState, username: string, email: string,
                                keyWrite: Outcome, userWrite: Outcome, emailWrite: Outcome)
      requires Valid()
      requires extensionStorage
      modifies this`storage, this`effects, this`accountState
      ensures Valid()
      ensures storage == AfterWrite(AfterWrite(AfterWrite(old(storage), vaultState, keyWrite),
                                               map["USER" := username], userWrite),
                                    map["EMAIL" := email], emailWrite)
      ensures Current(KEY) == (if keyWrite.Pass? then Some(Obj(vaultState)) else old(Current(KEY)))
      ensures Current(USER) == (if userWrite.Pass? then Some(Str(username)) else old(Current(USER)))
      ensures Current(EMAIL) == (if emailWrite.Pass? then Some(Str(email)) else old(Current(EMAIL)))
      ensures effects == old(effects) + WrittenThenPublished(KEY, Obj(vaultState), keyWrite)
                                      + WrittenThenPublished(USER, Str(username), userWrite)
                                      + WrittenThenPublished(EMAIL, Str(email), emailWrite)
    {
      ghost var before := effects;
      var written := WriteThenPublishOn(KEY, Obj(vaultState), keyWrite);
      ghost var afterKey := effects;
      written := WriteThenPublishOn(USER, Str(username), userWrite);
      ghost var afterUser := effects;
      written := WriteThenPublishOn(EMAIL, Str(email), emailWrite);
      assert afterUser == before + WrittenThenPublished(KEY, Obj(vaultState), keyWrite)
                                 + WrittenThenPublished(USER, Str(username), userWrite);
    }

    /** The `localStorage` order of `createAccount`'s effects: the three
        writes complete synchronously, then their callbacks publish. */
    method WriteAllThenPublish(vaultState: EngineState, username: string, email: string)
      requires Valid()
      requires !extensionStorage
      modifies this`storage, this`effects, this`accountState
      ensures Valid()
      ensures storage == old(storage) + vaultState + map["USER" := username] + map["EMAIL" := email]
      ensures accountState == old(accountState)[KEY := Obj(vaultState)][USER := Str(username)][EMAIL := Str(email)]
      ensures effects == old(effects) + [Stored(vaultState), Stored(map["USER" := username]), Stored(map["EMAIL" := email]),
                                         Published(KEY, Obj(vaultState)), Published(USER, Str(username)),
                                         Published(EMAIL, Str(email))]
    {
      var key, name, mail := Obj(vaultState), Str(username), Str(email);
      ghost var before := effects;
      var keyWritten := SetState(StorageEntries(KEY, key), Pass);
      var userWritten := SetState(StorageEntries(USER, name), Pass);
      var emailWritten := SetState(StorageEntries(EMAIL, mail), Pass);
      Publish(KEY, key);
      Publish(USER, name);
      Publish(EMAIL, mail);
      AppendSix(before, Stored(StorageEntries(KEY, key)), Stored(StorageEntries(USER, name)),
                Stored(StorageEntries(EMAIL, mail)), Published(KEY, key), Published(USER, name), Published(EMAIL, mail));
    }

    /** `createAccount(email, username, password)`: the engine's
        `createNewVaultAndKeychain` settles with `created`, and its store's
        state is then `vaultState`; the three storage writes end with
        `keyWrite`, `userWrite` and `emailWrite`. Each channel is published
        only when its own write succeeded; failed writes are only logged,
        and the call resolves all the same once the vault exists. */
    method CreateAccount(email: string, username: string, created: Result<EngineState>,
                         vaultState: EngineState, keyWrite: Outcome, userWrite: Outcome, emailWrite: Outcome)
      returns (r: Settlement<()>)
      requires Valid()
      modifies this
      ensures Valid()
      ensures old(keyringController).None? ==> r == Rejected(TypeError) && unchanged(this)
      ensures old(keyringController).Some? && created.Err? ==>
                r == Rejected(Text(created.error)) && unchanged(this)
      ensures baseline == old(baseline)
      ensures old(keyringController).Some? && created.Ok? ==>
                && r == Resolved(())
                && keyring == Keychain(created.value)
                && keyringState == Some(vaultState)
                && storage == AfterWrite(AfterWrite(AfterWrite(old(storage), vaultState, keyWrite),
                                                    map["USER" := username], userWrite),
                                         map["EMAIL" := email], emailWrite)
                && Current(KEY) == (if StorageSucceeds(keyWrite) then Some(Obj(vaultState)) else old(Current(KEY)))
                && Current(USER) == (if StorageSucceeds(userWrite) then Some(Str(username)) else old(Current(USER)))
                && Current(EMAIL) == (if StorageSucceeds(emailWrite) then Some(Str(email)) else old(Current(EMAIL)))
                && effects == old(effects) + CreationEffects(vaultState, username, email, keyWrite, userWrite, emailWrite)
                && keyringController == old(keyringController)
                && accounts == old(accounts) && user == old(user) && this.email == old(this.email)
    {
      if keyringController.None? {
        r := Rejected(TypeError);
        return;
      }
      if created.Err? {
        r := Rejected(Text(created.error));
        return;
      }
      keyring := Keychain(created.value);
      keyringState := Some(vaultState);
      StoreCreatedAccount(vaultState, username, email, keyWrite, userWrite, emailWrite);
      r := Resolved(());
    }

    /** `login(password)`: the engine's `unlockKeyrings` ends with `unlock`;
        after it, the store's state is `vaultState`, its write ends with
        `keyWrite`, and `getAccounts` settles with `listed`. A failed unlock
        rejects and leaves `accounts` alone; otherwise `accounts` becomes
        the engine's list before `login` resolves. A failed write rejects
        first (and `accounts` is still set afterwards); a failed
        `getAccounts` is never handled, so the call then never settles. */
    method Login(unlock: Outcome, vaultState: EngineState, keyWrite: Outcome, listed: Result<seq<string>>)
      returns (r: Settlement<()>)
      requires Valid()
      modifies this
      ensures Valid()
      ensures old(keyringController).None? ==> r == Rejected(TypeError) && unchanged(this)
      ensures baseline == old(baseline)
      ensures old(keyringController).Some? ==>
                && keyring == UnlockInProgress
                && keyringController == old(keyringController)
                && user == old(user) && email == old(email)
      ensures old(keyringController).Some? && unlock.Fail? ==>
                && r == Rejected(Text(unlock.error))
                && accounts == old(accounts) && keyringState == old(keyringState)
                && storage == old(storage) && accountState == old(accountState) && effects == old(effects)
      ensures old(keyringController).Some? && unlock.Pass? ==>
                && keyringState == Some(vaultState)
                && storage == AfterWrite(old(storage), vaultState, keyWrite)
                && Current(KEY) == (if StorageSucceeds(keyWrite) then Some(Obj(vaultState)) else old(Current(KEY)))
                && Current(USER) == old(Current(USER)) && Current(EMAIL) == old(Current(EMAIL))
                && accounts == (if listed.Ok? then Some(listed.value) else old(accounts))
                && effects == old(effects) + WrittenThenPublished(KEY, Obj(vaultState), keyWrite)
                && r == (if !StorageSucceeds(keyWrite) then Rejected(Text(keyWrite.error))
                         else if listed.Ok? then Resolved(())
                         else Pending)
    {
      if keyringController.None? {
        r := Rejected(TypeError);
        return;
      }
      keyring := UnlockInProgress;
      if unlock.Fail? {
        r := Rejected(Text(unlock.error));
        return;
      }
      keyringState := Some(vaultState);
      var written := WriteThenPublishOn(KEY, Obj(vaultState), keyWrite);
      r := if written.Rejected? then written else Pending;
      if listed.Ok? {
        accounts := Some(listed.value);
        if r.Pending? {
          r := Resolved(());
        }
      }
    }

    /** The request `getValidationArgs` sends to the engine: sign the
        authorization digest of (a, b, nonce) from the first account. */
    function AuthorizationRequest(web3: Web3, a: string, b: string, nonce: nat): SignRequest
      reads this
      requires accounts.Some?
    {
      SignRequest(First(accounts.value), AuthorizationDigest(web3, a, b, nonce))
    }

    /** `getValidationArgs(a, b, nonce)`: asks the engine (`signMessage`) to
        sign the authorization digest from `accounts[0]`, and resolves with
        the signature's fields `[v, r, s]`; an engine failure rejects with
        the signing-error message; with no controller or no accounts yet the
        call rejects with a TypeError. */
    function GetValidationArgs(web3: Web3, signMessage: SignRequest -> Result<string>,
                               a: string, b: string, nonce: nat): (r: Settlement<seq<string>>)
      reads this
      ensures !r.Pending?
      ensures keyringController.None? || accounts.None? ==> r == Rejected(TypeError)
      ensures keyringController.Some? && accounts.Some? ==>
                var signed := signMessage(AuthorizationRequest(web3, a, b, nonce));
                && (r.Resolved? <==> signed.Ok?)
                && (signed.Ok? ==> r.value == ValidationFields(signed.value)
                                   && |r.value| == 3 && r.value[1] <= signed.value)
                && (signed.Err? ==> r == Rejected(Text(SigningErrorPrefix + signed.error)))
    {
      if keyringController.None? || accounts.None? then Rejected(TypeError)
      else
        match signMessage(AuthorizationRequest(web3, a, b, nonce))
        case Ok(signature) => Resolved(ValidationFields(signature))
        case Err(e) => Rejected(Text(SigningErrorPrefix + e))
    }

    /** `signTransaction(trx)`, a plain (not `async`) method: it returns the
        engine's `signTransaction` promise for `accounts[0]`. With no
        accounts yet (whose first entry is logged before anything else) or
        no controller, the call itself throws a TypeError; no promise is
        returned. */
    function SignTransaction<Tx, Signed>(engineSign: (Tx, Option<string>) -> Settlement<Signed>, trx: Tx)
      : (r: Call<Settlement<Signed>>)
      reads this
      ensures r.Threw? <==> accounts.None? || keyringController.None?
      ensures r.Threw? ==> r.reason == TypeError
      ensures r.Returned? ==> r.value == engineSign(trx, First(accounts.value))
    {
      if accounts.None? || keyringController.None? then Threw(TypeError)
      else Returned(engineSign(trx, First(accounts.value)))
    }

    /** `getMnemonic()`: the first keyring of type "HD Key Tree"
        (`keyringsByType` is the engine's `getKeyringsByType`) is
        serialized and its `mnemonic` resolved; with none, the call rejects
        with "Couldn't find an HD key tree"; a failed serialization rejects
        with its error. */
    function GetMnemonic(keyringsByType: string -> seq<Keyring>): (r: Settlement<Option<string>>)
      reads this
      ensures !r.Pending?
      ensures keyringController.None? ==> r == Rejected(TypeError)
      ensures keyringController.Some? && |keyringsByType(HdKeyTree)| == 0 ==>
                r == Rejected(Text(NoHdKeyTree))
      ensures keyringController.Some? && |keyringsByType(HdKeyTree)| > 0 ==>
                match keyringsByType(HdKeyTree)[0].serialization
                case Ok(data) => r == Resolved(Lookup(data, "mnemonic"))
                case Err(e) => r == Rejected(Text(e))
    {
      if keyringController.None? then Rejected(TypeError)
      else
        var found := keyringsByType(HdKeyTree);
        if |found| == 0 then Rejected(Text(NoHdKeyTree))
        else
          match found[0].serialization
          case Ok(data) => Resolved(Lookup(data, "mnemonic"))
          case Err(e) => Rejected(Text(e))
    }
  }

  /** Merging `entries` into `store`, as a storage write does: each key of
      `entries` gets its value, and every other key keeps its presence and
      its value. */
  lemma MergeOverwrites(store: map<string, string>, entries: map<string, string>)
    ensures forall k :: k in entries ==> k in store + entries && (store + entries)[k] == entries[k]
    ensures forall k :: k !in entries ==> (k in store + entries <==> k in store)
    ensures forall k :: k !in entries && k in store ==> (store + entries)[k] == store[k]
  {
  }

  /** Two one-element appends make one two-element append. */
  lemma AppendTwo<T>(log: seq<T>, e1: T, e2: T)
    ensures log + [e1] + [e2] == log + [e1, e2]
  {
  }

  /** Six one-element appends make one six-element append. */
  lemma AppendSix<T>(log: seq<T>, e1: T, e2: T, e3: T, e4: T, e5: T, e6: T)
    ensures log + [e1] + [e2] + [e3] + [e4] + [e5] + [e6] == log + [e1, e2, e3, e4, e5, e6]
  {
  }

  /** A session from a fresh start with no extension storage: create an
      account, log in with the right password, then try a wrong one. The
      wrong password rejects with the engine's error and the active
      addresses stay those of the successful login. */
  method LoginTwiceScenario(addresses: seq<string>, vault: EngineState)
    returns (good: Settlement<()>, bad: Settlement<()>, active: Option<string>)
    ensures good == Resolved(())
    ensures bad == Rejected(Text("Incorrect password"))
    ensures active == First(addresses)
  {
    var service := new AccountService(false, map[], Pass);
    var created := service.CreateAccount("a@b.com", "alice", Ok(vault), vault, Pass, Pass, Pass);
    good := service.Login(Pass, vault, Pass, Ok(addresses));
    bad := service.Login(Fail("Incorrect password"), vault, Pass, Ok([]));
    active := First(service.accounts.value);
  }
}
