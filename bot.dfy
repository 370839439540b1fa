/** The legacy single-secret bot (src/bot.js): per user, a `tempSecret` issued
    by setup, promoted to `enabledSecret` by a verified code, and cleared by a
    verified disable. Each interaction works on the store it read and hands
    the whole store to `writeStore`. */
module LegacyBot {
  import opened Js

  type Store = map<string, Value>

  /** The replies of the four commands, as outcome tags. `DmSent` and
      `DmFailed` are the two replies of setup, after the store is written. */
  datatype Reply =
    | DmSent
    | DmFailed
    | NeedsSetup
    | InvalidCode
    | Enabled
    | AlreadyDisabled
    | DisableRejected
    | Disabled

  /** What a transition replies and the store it leaves behind. */
  datatype Outcome = Outcome(reply: Reply, store: Store)

  /** `store[userId]`, undefined for a user without an entry. */
  function EntryOf(store: Store, userId: string): Value
  {
    Prop(store, userId)
  }

  function TempSecretOf(store: Store, userId: string): Value
  {
    Get(EntryOf(store, userId), "tempSecret")
  }

  function EnabledSecretOf(store: Store, userId: string): Value
  {
    Get(EntryOf(store, userId), "enabledSecret")
  }

  /** The entry has a pending secret to verify: `userData && userData.tempSecret`. */
  predicate PendingSetup(store: Store, userId: string)
  {
    Truthy(EntryOf(store, userId)) && Truthy(TempSecretOf(store, userId))
  }

  /** `Boolean(userData && userData.enabledSecret)`. */
  predicate IsEnabled(store: Store, userId: string)
  {
    Truthy(EntryOf(store, userId)) && Truthy(EnabledSecretOf(store, userId))
  }

  /** A user never has both a pending and an enabled secret. */
  predicate Exclusive(store: Store, userId: string)
  {
    !(Truthy(TempSecretOf(store, userId)) && Truthy(EnabledSecretOf(store, userId)))
  }

  predicate AllExclusive(store: Store)
  {
    forall u :: u in store ==> Exclusive(store, u)
  }

  /** Only the user's own entry differs between the two stores, and it exists
      in the second. */
  predicate OthersUnchanged(store: Store, r: Store, userId: string)
  {
    && userId in r
    && r.Keys == store.Keys + {userId}
    && forall u :: u in store && u != userId ==> r[u] == store[u]
  }

  /** The entry setup writes. */
  function SetupEntry(secret: string, createdAt: string): Value
  {
    Obj(map["tempSecret" := Str(secret), "enabledSecret" := Null, "createdAt" := Str(createdAt)])
  }

  /** The entry a verified disable writes. */
  function DisabledEntry(disabledAt: string): Value
  {
    Obj(map["tempSecret" := Null, "enabledSecret" := Null, "disabledAt" := Str(disabledAt)])
  }

  /** The store after `handleSetup`: the user's whole entry is replaced by a
      fresh pending secret, discarding any enabled one. */
  function SetupStep(store: Store, userId: string, secret: string, createdAt: string): (r: Store)
    ensures OthersUnchanged(store, r, userId)
    ensures TempSecretOf(r, userId) == Str(secret) && EnabledSecretOf(r, userId) == Null
    ensures !IsEnabled(r, userId)
    ensures AllExclusive(store) ==> AllExclusive(r)
  {
    store[userId := SetupEntry(secret, createdAt)]
  }

  /** `handleVerify` on values: without a pending secret, or with a code the
      verifier rejects, nothing changes; otherwise the pending secret becomes
      the enabled one, the pending one is cleared, `enabledAt` is stamped, and
      the entry's other fields are kept. */
  function VerifyStep(store: Store, userId: string, token: string, now: string,
                      verify: (Value, string) -> bool): (o: Outcome)
    ensures o.reply in {NeedsSetup, InvalidCode, Enabled}
    ensures o.reply == NeedsSetup <==> !PendingSetup(store, userId)
    ensures o.reply == InvalidCode <==> PendingSetup(store, userId) && !verify(TempSecretOf(store, userId), token)
    ensures o.reply != Enabled ==> o.store == store
    ensures o.reply == Enabled ==>
      && OthersUnchanged(store, o.store, userId)
      && EnabledSecretOf(o.store, userId) == TempSecretOf(store, userId)
      && TempSecretOf(o.store, userId) == Null
      && IsEnabled(o.store, userId)
      && store[userId].Obj? && o.store[userId].Obj?
      && o.store[userId].props - {"tempSecret", "enabledSecret", "enabledAt"}
         == store[userId].props - {"tempSecret", "enabledSecret", "enabledAt"}
    ensures AllExclusive(store) ==> AllExclusive(o.store)
  {
    var userData := EntryOf(store, userId);
    if !Truthy(userData) || !Truthy(Get(userData, "tempSecret")) then Outcome(NeedsSetup, store)
    else if !verify(Get(userData, "tempSecret"), token) then Outcome(InvalidCode, store)
    else
      var props := userData.props;
      var promoted := props["enabledSecret" := props["tempSecret"]]["tempSecret" := Null]["enabledAt" := Str(now)];
      Outcome(Enabled, store[userId := Obj(promoted)])
  }

  /** `handleDisable` on values: without an enabled secret, or with a code the
      verifier rejects against it, nothing changes; otherwise the whole entry
      is replaced by one with neither secret. */
  function DisableStep(store: Store, userId: string, token: string, disabledAt: string,
                       verify: (Value, string) -> bool): (o: Outcome)
    ensures o.reply in {AlreadyDisabled, DisableRejected, Disabled}
    ensures o.reply == AlreadyDisabled <==> !IsEnabled(store, userId)
    ensures o.reply == DisableRejected <==> IsEnabled(store, userId) && !verify(EnabledSecretOf(store, userId), token)
    ensures o.reply != Disabled ==> o.store == store
    ensures o.reply == Disabled ==>
      && OthersUnchanged(store, o.store, userId)
      && TempSecretOf(o.store, userId) == Null && EnabledSecretOf(o.store, userId) == Null
      && !IsEnabled(o.store, userId) && !PendingSetup(o.store, userId)
    ensures AllExclusive(store) ==> AllExclusive(o.store)
  {
    var userData := EntryOf(store, userId);
    if !Truthy(userData) || !Truthy(Get(userData, "enabledSecret")) then Outcome(AlreadyDisabled, store)
    else if !verify(Get(userData, "enabledSecret"), token) then Outcome(DisableRejected, store)
    else Outcome(Disabled, store[userId := DisabledEntry(disabledAt)])
  }

  /** Setting up and then entering a code the verifier accepts for the new
      secret enables exactly that secret. */
  lemma SetupThenVerifyEnables(store: Store, userId: string, secret: string, createdAt: string,
                               token: string, now: string, verify: (Value, string) -> bool)
    requires secret != "" && verify(Str(secret), token)
    ensures var o := VerifyStep(SetupStep(store, userId, secret, createdAt), userId, token, now, verify);
      && o.reply == Enabled
      && IsEnabled(o.store, userId)
      && EnabledSecretOf(o.store, userId) == Str(secret)
      && !PendingSetup(o.store, userId)
  {
    var s := SetupStep(store, userId, secret, createdAt);
    assert PendingSetup(s, userId);
  }

  /** A secret is verified once: after a successful verify, verifying again
      needs a new setup. */
  lemma VerifyIsOneShot(store: Store, userId: string, token: string, now: string, token2: string, now2: string,
                        verify: (Value, string) -> bool)
    requires VerifyStep(store, userId, token, now, verify).reply == Enabled
    ensures var s := VerifyStep(store, userId, token, now, verify).store;
      VerifyStep(s, userId, token2, now2, verify) == Outcome(NeedsSetup, s)
  {
  }

  /** Disabling an enabled account with an accepted code, then asking for the
      status, reports "disabled"; a new setup is needed before it can be
      enabled again. */
  lemma DisableThenStatus(store: Store, userId: string, token: string, at: string,
                          token2: string, now: string, verify: (Value, string) -> bool)
    requires IsEnabled(store, userId) && verify(EnabledSecretOf(store, userId), token)
    ensures var o := DisableStep(store, userId, token, at, verify);
      && o.reply == Disabled
      && !IsEnabled(o.store, userId)
      && VerifyStep(o.store, userId, token2, now, verify).reply == NeedsSetup
  {
  }

  /** The handlers of src/bot.js over one interaction's store. `verify` is
      speakeasy's TOTP check with a window of one step; `written` records
      every store passed to `writeStore`, in order. */
  class Bot {
    var store: Store
    var written: seq<Store>
    const verify: (Value, string) -> bool

    constructor (store: Store, verify: (Value, string) -> bool)
      ensures this.store == store && written == [] && this.verify == verify
    {
      this.store := store;
      written := [];
      this.verify := verify;
    }

    /** `handleSetup`: the new entry is stored and written before the DM is
        attempted; whether the DM reaches the user decides only the reply. */
    method HandleSetup(userId: string, secret: string, createdAt: string, dmDelivered: bool) returns (reply: Reply)
      modifies this`store, this`written
      ensures store == SetupStep(old(store), userId, secret, createdAt)
      ensures written == old(written) + [store]
      ensures reply == (if dmDelivered then DmSent else DmFailed)
    {
      store := store[userId := SetupEntry(secret, createdAt)];
      written := written + [store];
      reply := if dmDelivered then DmSent else DmFailed;
    }

    /** `handleVerify`: mutates the user's entry in place and writes once on
        success; writes nothing otherwise. */
    method HandleVerify(userId: string, token: string, now: string) returns (reply: Reply)
      modifies this`store, this`written
      ensures reply == VerifyStep(old(store), userId, token, now, verify).reply
      ensures store == VerifyStep(old(store), userId, token, now, verify).store
      ensures written == if reply == Enabled then old(written) + [store] else old(written)
      ensures AllExclusive(old(store)) ==> AllExclusive(store)
    {
      var userData := EntryOf(store, userId);
      if !Truthy(userData) || !Truthy(Get(userData, "tempSecret")) {
        return NeedsSetup;
      }
      var ok := verify(Get(userData, "tempSecret"), token);
      if !ok {
        return InvalidCode;
      }
      userData := Obj(userData.props["enabledSecret" := userData.props["tempSecret"]]);
      userData := Obj(userData.props["tempSecret" := Null]);
      userData := Obj(userData.props["enabledAt" := Str(now)]);
      store := store[userId := userData];
      written := written + [store];
      reply := Enabled;
    }

    /** `handleStatus`: enabled exactly when the entry exists and its
        `enabledSecret` is truthy. */
    method HandleStatus(userId: string) returns (enabled: bool)
      ensures enabled <==>
        userId in store && Truthy(store[userId]) && Truthy(Get(store[userId], "enabledSecret"))
    {
      var userData := EntryOf(store, userId);
      enabled := Truthy(userData) && Truthy(Get(userData, "enabledSecret"));
    }

    /** `handleDisable`: replaces the entry and writes once on success; writes
        nothing otherwise. */
    method HandleDisable(userId: string, token: string, disabledAt: string) returns (reply: Reply)
      modifies this`store, this`written
      ensures reply == DisableStep(old(store), userId, token, disabledAt, verify).reply
      ensures store == DisableStep(old(store), userId, token, disabledAt, verify).store
      ensures written == if reply == Disabled then old(written) + [store] else old(written)
      ensures AllExclusive(old(store)) ==> AllExclusive(store)
    {
      var userData := EntryOf(store, userId);
      if !Truthy(userData) || !Truthy(Get(userData, "enabledSecret")) {
        return AlreadyDisabled;
      }
      var ok := verify(Get(userData, "enabledSecret"), token);
      if !ok {
        return DisableRejected;
      }
      store := store[userId := DisabledEntry(disabledAt)];
      written := written + [store];
      reply := Disabled;
    }
  }
}
