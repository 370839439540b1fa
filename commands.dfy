/** The multi-account vault commands (src/commands.js): per user, a map of labels
    to stored secrets and an optional default label, updated by the save,
    remove and set-default handlers, and read by the code, list and status
    handlers. */
module Commands {
  import opened Wrappers
  import opened Js
  import opened Validators
  import opened Security
  import Storage

  type Store = Storage.Store

  // ---------------------------------------------------------------------------
  // Vaults

  /** A user's vault once `getUserVault` has repaired it: an object whose
      `secrets` field is an object. */
  predicate IsVault(v: Value)
  {
    v.Obj? && "secrets" in v.props && v.props["secrets"].Obj?
  }

  /** The labels and stored secrets of a vault. */
  function SecretsOf(v: Value): map<string, Value>
    requires IsVault(v)
  {
    v.props["secrets"].props
  }

  /** `userData.defaultLabel`. */
  function DefaultOf(v: Value): Value
    requires v.Obj?
  {
    Prop(v.props, "defaultLabel")
  }

  /** The vault invariant: the default label is unset (falsy) or a label that
      has a stored secret. */
  predicate DefaultValid(v: Value)
    requires IsVault(v)
  {
    !Truthy(DefaultOf(v)) || (DefaultOf(v).Str? && DefaultOf(v).s in SecretsOf(v))
  }

  /** Fields other than `secrets` and `defaultLabel` are the same in both objects. */
  predicate OtherFieldsKept(v: Value, r: Value)
    requires v.Obj? && r.Obj?
  {
    r.props - {"secrets", "defaultLabel"} == v.props - {"secrets", "defaultLabel"}
  }

  /** An entry the handlers can work on: falsy (no vault yet) or an object whose
      `secrets` is not an array. */
  predicate EntryShaped(e: Value)
  {
    !Truthy(e) || (e.Obj? && !Get(e, "secrets").Arr?)
  }

  predicate WellShaped(store: Store)
  {
    forall u :: u in store ==> EntryShaped(store[u])
  }

  /** Every entry is either falsy or a vault that keeps the invariant: what the
      handlers leave behind when they start from such a store. */
  predicate VaultsConsistent(store: Store)
  {
    forall u :: u in store ==> !Truthy(store[u]) || (IsVault(store[u]) && DefaultValid(store[u]))
  }

  /** Storing a vault keeps the store well shaped, and keeps it consistent when
      the vault keeps the invariant. */
  lemma StoreVault(store: Store, userId: string, v: Value)
    requires WellShaped(store) && IsVault(v)
    ensures WellShaped(store[userId := v])
    ensures VaultsConsistent(store) && DefaultValid(v) ==> VaultsConsistent(store[userId := v])
  {
  }

  lemma ConsistentIsWellShaped(store: Store)
    requires VaultsConsistent(store)
    ensures WellShaped(store)
  {
  }

  function WithSecrets(v: Value, secrets: map<string, Value>): Value
    requires v.Obj?
  {
    Obj(v.props["secrets" := Obj(secrets)])
  }

  function WithDefault(v: Value, d: Value): Value
    requires v.Obj?
  {
    Obj(v.props["defaultLabel" := d])
  }

  /** `getUserVault`: the user's entry, or a fresh object when the entry is
      falsy, with `secrets` reset to `{}` when it is falsy or not an object. */
  function UserVault(store: Store, userId: string): (v: Value)
    requires WellShaped(store)
    ensures IsVault(v)
    ensures userId in store && IsVault(store[userId]) ==> v == store[userId]
    ensures !Truthy(Prop(store, userId)) ==> v == Obj(map["secrets" := Obj(map[])])
    ensures Truthy(Prop(store, userId)) && !IsVault(store[userId]) ==>
      v == Obj(store[userId].props["secrets" := Obj(map[])])
    ensures Truthy(Prop(store, userId)) ==> OtherFieldsKept(store[userId], v) && DefaultOf(v) == DefaultOf(store[userId])
  {
    var entry := Prop(store, userId);
    var userData := if Truthy(entry) then entry else Obj(map[]);
    var secrets := Get(userData, "secrets");
    if !Truthy(secrets) || !IsObjectType(secrets) then WithSecrets(userData, map[]) else userData
  }

  /** Repairing a repaired vault changes nothing, and a consistent store yields
      a vault that keeps the invariant. */
  lemma UserVaultIdempotent(store: Store, userId: string)
    requires WellShaped(store)
    ensures WellShaped(store[userId := UserVault(store, userId)])
    ensures UserVault(store[userId := UserVault(store, userId)], userId) == UserVault(store, userId)
    ensures VaultsConsistent(store) ==> DefaultValid(UserVault(store, userId))
  {
  }

  /** The secret stored under `label` is truthy: the check that remove and
      set-default make, reading own properties only. */
  predicate HasLabel(v: Value, name: string): (r: bool)
    requires IsVault(v)
    ensures r ==> name in SecretsOf(v)
  {
    Truthy(Prop(SecretsOf(v), name))
  }

  /** The mutation of a successful save: `secrets[label] := stored`, and the
      label becomes the default when there was none. */
  function SaveInto(v: Value, name: string, stored: string): (r: Value)
    requires IsVault(v)
    ensures IsVault(r)
    ensures SecretsOf(r) == SecretsOf(v)[name := Str(stored)]
    ensures Truthy(DefaultOf(v)) ==> DefaultOf(r) == DefaultOf(v)
    ensures !Truthy(DefaultOf(v)) ==> DefaultOf(r) == Str(name)
    ensures OtherFieldsKept(v, r)
    ensures DefaultValid(v) ==> DefaultValid(r)
  {
    var saved := WithSecrets(v, SecretsOf(v)[name := Str(stored)]);
    if !Truthy(DefaultOf(saved)) then WithDefault(saved, Str(name)) else saved
  }

  /** The checks `handleSave` makes before it changes anything, in order: the
      reply that refuses the save, or `None` when it goes ahead. */
  function SaveRefusal(generate: Value -> Option<string>, name: string, secret: string): (r: Option<Reply>)
    ensures r == Some(InvalidLabel) <==> !IsValidLabel(name)
    ensures r == Some(InvalidSecret) <==> IsValidLabel(name) && !IsLikelyBase32(secret)
    ensures r == Some(SecretRejected) <==>
      IsValidLabel(name) && IsLikelyBase32(secret) && generate(Str(secret)).None?
    ensures r.None? <==> IsValidLabel(name) && IsLikelyBase32(secret) && generate(Str(secret)).Some?
  {
    if !IsValidLabel(name) then Some(InvalidLabel)
    else if !IsLikelyBase32(secret) then Some(InvalidSecret)
    else if generate(Str(secret)).None? then Some(SecretRejected)
    else None
  }

  /** `first` is a valid reading of `Object.keys(secrets)[0]` after `label` is
      deleted: some remaining label, or `None` when none remains. */
  predicate ValidPick(v: Value, name: string, first: Option<string>)
    requires IsVault(v)
  {
    match first
    case None => forall k :: k in SecretsOf(v) ==> k == name
    case Some(k) => k in SecretsOf(v) && k != name
  }

  /** A pick of the keys left once `label` is deleted, `None` exactly when none
      is left, is a valid pick. */
  lemma RemainingPick(v: Value, name: string, first: Option<string>)
    requires IsVault(v)
    requires first.None? <==> SecretsOf(v) - {name} == map[]
    requires first.Some? ==> first.value in SecretsOf(v) - {name}
    ensures ValidPick(v, name, first)
  {
    if first.None? {
      forall k | k in SecretsOf(v) ensures k == name {
        assert k !in SecretsOf(v) - {name};
      }
    }
  }

  /** The mutation of a successful remove: the label is deleted; when it was the
      default, the default becomes the first remaining label, or null when none
      remains or that label is "" (`rest[0] || null`). */
  function RemoveFrom(v: Value, name: string, first: Option<string>): (r: Value)
    requires IsVault(v) && ValidPick(v, name, first)
    ensures IsVault(r)
    ensures SecretsOf(r) == SecretsOf(v) - {name}
    ensures DefaultOf(v) != Str(name) ==> DefaultOf(r) == DefaultOf(v)
    ensures DefaultOf(v) == Str(name) ==>
      DefaultOf(r) == (if first.Some? && first.value != "" then Str(first.value) else Null)
    ensures OtherFieldsKept(v, r)
    ensures DefaultOf(v) == Str(name) ==> DefaultValid(r)
    ensures DefaultValid(v) ==> DefaultValid(r)
  {
    var removed := WithSecrets(v, SecretsOf(v) - {name});
    if DefaultOf(removed) == Str(name) then
      WithDefault(removed, if first.Some? && first.value != "" then Str(first.value) else Null)
    else removed
  }

  /** The mutation of a successful set-default. */
  function SetDefaultIn(v: Value, name: string): (r: Value)
    requires IsVault(v)
    ensures IsVault(r)
    ensures SecretsOf(r) == SecretsOf(v)
    ensures DefaultOf(r) == Str(name)
    ensures OtherFieldsKept(v, r)
    ensures name in SecretsOf(v) ==> DefaultValid(r)
  {
    WithDefault(v, Str(name))
  }

  /** Whatever the pick of a remaining label, removing a label that exists
      leaves none of it behind, and removing the default never leaves it dangling. */
  lemma RemoveLeavesNoDangling(v: Value, name: string, first: Option<string>)
    requires IsVault(v) && ValidPick(v, name, first)
    ensures name !in SecretsOf(RemoveFrom(v, name, first))
    ensures DefaultOf(RemoveFrom(v, name, first)) != Str(name)
  {
  }

  // ---------------------------------------------------------------------------
  // Replies and code-source selection

  /** Where `/auth-code` took its secret from. */
  datatype CodeSource = NoSource | ManualSecret | FromLabel(name: string) | FromDefault(defaultLabel: Value)

  /** The outcome of a command, one tag per reply the handlers can send.
      `GeneratorThrew` is the exception that escapes `handleCode` when the
      final code generation throws. */
  datatype Reply =
    | InvalidLabel
    | InvalidSecret
    | SecretRejected
    | Saved(name: string, encrypted: bool)
    | NoSecrets
    | Labels(labels: set<string>, defaultLabel: Option<Value>)
    | LabelNotFound(name: string)
    | Removed(name: string)
    | DefaultSet(name: string)
    | ManualSecretRejected
    | DecryptFailed(ofDefault: bool)
    | SecretNotFound
    | GeneratorThrew
    | BadCodeFormat
    | Code(code: string, source: CodeSource)
    | Status(labelCount: nat, defaultLabel: Option<Value>, encryption: bool)

  /** The secret and source chosen by `handleCode`, or the reply that ends it early. */
  datatype Selection = Selected(secret: Value, source: CodeSource) | Refused(reply: Reply)

  /** The selection step of `handleCode`: a manual secret first, then the named
      label, then the default label. */
  function SelectSecret(p: Primitives, c: Codec, generate: Value -> Option<string>,
                        v: Value, name: string, rawSecret: string): (s: Selection)
    requires IsVault(v)
    // a manual secret: refused when not Base32, then when the generator throws on it
    ensures rawSecret != "" && !IsLikelyBase32(rawSecret) ==> s == Refused(InvalidSecret)
    ensures rawSecret != "" && IsLikelyBase32(rawSecret) && generate(Str(rawSecret)).None? ==>
      s == Refused(ManualSecretRejected)
    ensures rawSecret != "" ==>
      (s.Selected? <==> IsLikelyBase32(rawSecret) && generate(Str(rawSecret)).Some?)
    ensures rawSecret != "" && s.Selected? ==> s == Selected(Str(rawSecret), ManualSecret)
    // otherwise a named label, whose entry must decrypt
    ensures rawSecret == "" && name != "" ==>
      (s.Selected? <==> Decrypt(p, c, Prop(SecretsOf(v), name)).Ok?)
    ensures rawSecret == "" && name != "" && s.Selected? ==>
      s == Selected(Decrypt(p, c, Prop(SecretsOf(v), name)).value, FromLabel(name))
    ensures rawSecret == "" && name != "" && !s.Selected? ==> s == Refused(DecryptFailed(false))
    // otherwise a truthy default label, whose entry must decrypt
    ensures rawSecret == "" && name == "" && Truthy(DefaultOf(v)) ==>
      (s.Selected? <==> Decrypt(p, c, Prop(SecretsOf(v), ToJsString(DefaultOf(v)))).Ok?)
    ensures rawSecret == "" && name == "" && Truthy(DefaultOf(v)) && s.Selected? ==>
      s == Selected(Decrypt(p, c, Prop(SecretsOf(v), ToJsString(DefaultOf(v)))).value, FromDefault(DefaultOf(v)))
    ensures rawSecret == "" && name == "" && Truthy(DefaultOf(v)) && !s.Selected? ==>
      s == Refused(DecryptFailed(true))
    // otherwise nothing is selected
    ensures rawSecret == "" && name == "" && !Truthy(DefaultOf(v)) ==> s == Selected(Str(""), NoSource)
  {
    if rawSecret != "" then
      if !IsLikelyBase32(rawSecret) then Refused(InvalidSecret)
      else if generate(Str(rawSecret)).None? then Refused(ManualSecretRejected)
      else Selected(Str(rawSecret), ManualSecret)
    else if name != "" then
      match Decrypt(p, c, Prop(SecretsOf(v), name))
      case Err(_) => Refused(DecryptFailed(false))
      case Ok(secret) => Selected(secret, FromLabel(name))
    else if Truthy(DefaultOf(v)) then
      match Decrypt(p, c, Prop(SecretsOf(v), ToJsString(DefaultOf(v))))
      case Err(_) => Refused(DecryptFailed(true))
      case Ok(secret) => Selected(secret, FromDefault(DefaultOf(v)))
    else Selected(Str(""), NoSource)
  }

  /** The end of `handleCode`: no truthy secret means "not found", a code is
      generated from it, and a code that is not six digits is never shown. */
  function Finish(s: Selection, generate: Value -> Option<string>): (r: Reply)
    requires s.Refused? ==> !s.reply.Code?
    ensures s.Refused? ==> r == s.reply
    ensures r.Code? ==>
      && s.Selected? && Truthy(s.secret) && r.source == s.source
      && generate(s.secret) == Some(r.code) && IsValidCodeFormat(Some(r.code))
    ensures s.Selected? && !Truthy(s.secret) ==> r == SecretNotFound
    ensures s.Selected? && Truthy(s.secret) && generate(s.secret).None? ==> r == GeneratorThrew
    ensures s.Selected? && Truthy(s.secret) && generate(s.secret).Some? ==>
      r == (if IsValidCodeFormat(Some(generate(s.secret).value)) then Code(generate(s.secret).value, s.source)
            else BadCodeFormat)
  {
    match s
    case Refused(reply) => reply
    case Selected(secret, source) =>
      if !Truthy(secret) then SecretNotFound
      else match generate(secret)
        case None => GeneratorThrew
        case Some(code) => if !IsValidCodeFormat(Some(code)) then BadCodeFormat else Code(code, source)
  }

  /** The reply of `handleCode` for a repaired vault and the two options. */
  function CodeReply(p: Primitives, c: Codec, generate: Value -> Option<string>,
                     v: Value, labelInput: Option<string>, secretInput: Option<string>): (r: Reply)
    requires IsVault(v)
    ensures r.Code? ==> IsValidCodeFormat(Some(r.code))
    ensures r.Code? && r.source == ManualSecret ==>
      generate(Str(NormalizeSecret(secretInput))) == Some(r.code)
    ensures r.Code? && r.source.FromLabel? ==> r.source.name == NormalizeLabel(labelInput)
  {
    Finish(SelectSecret(p, c, generate, v, NormalizeLabel(labelInput), NormalizeSecret(secretInput)), generate)
  }

  /** A non-empty manual secret decides the outcome whatever the vault and the
      label say. */
  lemma ManualSecretWins(p: Primitives, c: Codec, generate: Value -> Option<string>,
                         v1: Value, v2: Value, l1: Option<string>, l2: Option<string>, secretInput: Option<string>)
    requires IsVault(v1) && IsVault(v2)
    requires NormalizeSecret(secretInput) != ""
    ensures CodeReply(p, c, generate, v1, l1, secretInput) == CodeReply(p, c, generate, v2, l2, secretInput)
  {
  }

  /** Without a manual secret, a named label decides the outcome whatever the
      default label is. */
  lemma LabelBeatsDefault(p: Primitives, c: Codec, generate: Value -> Option<string>,
                          v1: Value, v2: Value, labelInput: Option<string>, secretInput: Option<string>)
    requires IsVault(v1) && IsVault(v2) && SecretsOf(v1) == SecretsOf(v2)
    requires NormalizeSecret(secretInput) == "" && NormalizeLabel(labelInput) != ""
    ensures CodeReply(p, c, generate, v1, labelInput, secretInput) == CodeReply(p, c, generate, v2, labelInput, secretInput)
  {
  }

  /** With neither a manual secret nor a label, a vault without a default finds
      no secret. */
  lemma NoSourceNotFound(p: Primitives, c: Codec, generate: Value -> Option<string>,
                         v: Value, labelInput: Option<string>, secretInput: Option<string>)
    requires IsVault(v) && !Truthy(DefaultOf(v))
    requires NormalizeSecret(secretInput) == "" && NormalizeLabel(labelInput) == ""
    ensures CodeReply(p, c, generate, v, labelInput, secretInput) == SecretNotFound
  {
  }

  /** A valid Base32 secret does not look like an envelope. */
  lemma Base32IsNotEnvelope(s: string)
    requires IsLikelyBase32(s)
    ensures !StartsWith(s, Marker)
  {
    Base32HasNoColon(s);
    assert Marker[6] == ':';
  }

  /** After a successful save of `secret` under `label`, asking for a code by
      that label generates it from the same secret, in both codec modes. */
  lemma SaveThenCodeByLabel(p: Primitives, c: Codec, generate: Value -> Option<string>,
                            v: Value, name: string, secret: string, iv: Bytes)
    requires Sound(p) && IsVault(v) && |iv| == IvLength
    requires IsValidLabel(name) && IsLikelyBase32(secret)
    requires generate(Str(secret)).Some? && IsValidCodeFormat(Some(generate(Str(secret)).value))
    ensures CodeReply(p, c, generate, SaveInto(v, name, Encrypt(p, c, iv, secret)), Some(name), None)
         == Code(generate(Str(secret)).value, FromLabel(name))
  {
    ValidLabelIsNormal(name);
    Base32IsNotEnvelope(secret);
    DecryptEncrypt(p, c, iv, secret);
    assert NormalizeSecret(None) == "";
  }

  /** The first secret saved into a vault without a default becomes the
      default, so a later code request with no options uses it. */
  lemma FirstSaveServesDefaultCode(p: Primitives, c: Codec, generate: Value -> Option<string>,
                                   v: Value, name: string, secret: string, iv: Bytes)
    requires Sound(p) && IsVault(v) && !Truthy(DefaultOf(v)) && |iv| == IvLength
    requires IsValidLabel(name) && IsLikelyBase32(secret)
    requires generate(Str(secret)).Some? && IsValidCodeFormat(Some(generate(Str(secret)).value))
    ensures CodeReply(p, c, generate, SaveInto(v, name, Encrypt(p, c, iv, secret)), None, None)
         == Code(generate(Str(secret)).value, FromDefault(Str(name)))
  {
    Base32IsNotEnvelope(secret);
    DecryptEncrypt(p, c, iv, secret);
    assert NormalizeSecret(None) == "";
    assert NormalizeLabel(None) == "" by { assert NormalizeCode(None) == ""; }
  }

  /** Asking for a code by a valid label that has no stored secret finds
      nothing, with own-property reads. */
  lemma MissingLabelNotFound(p: Primitives, c: Codec, generate: Value -> Option<string>,
                             v: Value, name: string)
    requires IsVault(v) && IsValidLabel(name) && name !in SecretsOf(v)
    ensures CodeReply(p, c, generate, v, Some(name), None) == SecretNotFound
  {
    ValidLabelIsNormal(name);
    assert NormalizeSecret(None) == "";
    assert !IsEncryptedPayload(Undefined);
  }

  /** After a label is removed, asking for a code by that label finds nothing;
      so does the code as written, unless the label names a prototype member. */
  lemma RemovedLabelNotFound(p: Primitives, c: Codec, generate: Value -> Option<string>,
                             v: Value, name: string, first: Option<string>)
    requires IsVault(v) && ValidPick(v, name, first)
    requires IsValidLabel(name)
    ensures CodeReply(p, c, generate, RemoveFrom(v, name, first), Some(name), None) == SecretNotFound
    ensures name !in InheritedLabels ==>
      CodeReplyAsWritten(p, c, generate, RemoveFrom(v, name, first), Some(name), None) == SecretNotFound
  {
    var r := RemoveFrom(v, name, first);
    MissingLabelNotFound(p, c, generate, r, name);
    if name !in InheritedLabels {
      ValidLabelIsNormal(name);
      InheritedViewAgrees(SecretsOf(r), name);
      MissingLabelNotFound(p, c, generate, WithSecrets(r, InheritedView(SecretsOf(r))), name);
    }
  }

  /** `Object.keys(secrets)[0]`: some key of `secrets`, or `None` (undefined)
      when it has none. Which key comes first is left open. */
  method FirstKey(secrets: map<string, Value>) returns (first: Option<string>)
    ensures first.None? <==> secrets == map[]
    ensures first.Some? ==> first.value in secrets
  {
    first := None;
    if secrets != map[] {
      var k :| k in secrets;
      first := Some(k);
    }
  }

  // ---------------------------------------------------------------------------
  // The handlers

  /** `createCommandHandlers` over one in-memory store: the injected
      `writeStore` appends the store it is given to `written`, `generateTotp`
      is `generate` (`None` when it throws), and the codec supplies
      `encryptSecret`, `decryptSecret` and `encryptionEnabled`. */
  class Handlers {
    /** The store the handlers receive for this interaction. */
    var store: Store
    /** Every store passed to `writeStore`, in order. */
    var written: seq<Store>
    const prims: Primitives
    const codec: Codec
    const generate: Value -> Option<string>

    constructor (store: Store, prims: Primitives, codec: Codec, generate: Value -> Option<string>)
      ensures this.store == store && written == []
      ensures this.prims == prims && this.codec == codec && this.generate == generate
    {
      this.store := store;
      written := [];
      this.prims := prims;
      this.codec := codec;
      this.generate := generate;
    }

    /** `getUserVault`: the repaired vault, stored back under the user id; no
        other user's entry changes. */
    method GetUserVault(userId: string) returns (userData: Value)
      requires WellShaped(store)
      modifies this`store
      ensures userData == UserVault(old(store), userId)
      ensures store == old(store)[userId := userData]
      ensures WellShaped(store)
      ensures VaultsConsistent(old(store)) ==> VaultsConsistent(store) && DefaultValid(userData)
    {
      var entry := Prop(store, userId);
      userData := if Truthy(entry) then entry else Obj(map[]);
      var secrets := Get(userData, "secrets");
      if !Truthy(secrets) || !IsObjectType(secrets) {
        userData := Obj(userData.props["secrets" := Obj(map[])]);
      }
      store := store[userId := userData];
    }

    /** The end of a successful mutation: the updated vault is the user's entry
        (the handlers mutate the object `getUserVault` stored) and the whole
        store is passed to `writeStore` once. */
    method Commit(userId: string, userData: Value)
      requires WellShaped(store) && IsVault(userData)
      modifies this`store, this`written
      ensures store == old(store)[userId := userData]
      ensures written == old(written) + [store]
      ensures WellShaped(store)
      ensures VaultsConsistent(old(store)) && DefaultValid(userData) ==> VaultsConsistent(store)
    {
      StoreVault(store, userId, userData);
      store := store[userId := userData];
      written := written + [store];
    }

    /** `handleSave`. An invalid label, a secret that is not Base32 or one the
        generator throws on is refused without a write; otherwise the encrypted
        secret is stored under the label, the label becomes the default when
        there was none, and the store is written once. */
    method HandleSave(userId: string, labelInput: string, secretInput: string, iv: Bytes) returns (reply: Reply)
      requires WellShaped(store) && |iv| == IvLength
      modifies this`store, this`written
      ensures reply.Saved? <==>
        SaveRefusal(generate, NormalizeLabel(Some(labelInput)), NormalizeSecret(Some(secretInput))).None?
      ensures !reply.Saved? ==>
        && SaveRefusal(generate, NormalizeLabel(Some(labelInput)), NormalizeSecret(Some(secretInput))) == Some(reply)
        && store == old(store)[userId := UserVault(old(store), userId)]
        && written == old(written)
      ensures reply.Saved? ==>
        && reply == Saved(NormalizeLabel(Some(labelInput)), EncryptionEnabled(codec))
        && store == old(store)[userId := SaveInto(UserVault(old(store), userId), reply.name,
                                                  Encrypt(prims, codec, iv, NormalizeSecret(Some(secretInput))))]
        && written == old(written) + [store]
      ensures WellShaped(store)
      ensures VaultsConsistent(old(store)) ==> VaultsConsistent(store)
    {
      var userData := GetUserVault(userId);
      var name := NormalizeLabel(Some(labelInput));
      var secret := NormalizeSecret(Some(secretInput));
      var refusal := SaveRefusal(generate, name, secret);
      if refusal.Some? {
        return refusal.value;
      }
      var stored := Encrypt(prims, codec, iv, secret);
      userData := SaveInto(userData, name, stored);
      Commit(userId, userData);
      reply := Saved(name, EncryptionEnabled(codec));
    }

    /** `handleList`: the user's labels and default, or "no secrets". */
    method HandleList(userId: string) returns (reply: Reply)
      requires WellShaped(store)
      modifies this`store
      ensures var vault := UserVault(old(store), userId);
        && (SecretsOf(vault) == map[] ==> reply == NoSecrets)
        && (SecretsOf(vault) != map[] ==> reply == Labels(SecretsOf(vault).Keys,
              if Truthy(DefaultOf(vault)) then Some(DefaultOf(vault)) else None))
        && store == old(store)[userId := vault]
      ensures WellShaped(store)
    {
      var userData := GetUserVault(userId);
      var labels := SecretsOf(userData).Keys;
      if |labels| == 0 {
        return NoSecrets;
      }
      var defaultLabel := if Truthy(DefaultOf(userData)) then Some(DefaultOf(userData)) else None;
      reply := Labels(labels, defaultLabel);
    }

    /** `handleRemove`: a label without a truthy secret is reported missing
        without a write; otherwise it is deleted, a default that named it moves
        to a remaining label (or null), and the store is written once. */
    method HandleRemove(userId: string, labelInput: string) returns (reply: Reply)
      requires WellShaped(store)
      modifies this`store, this`written
      ensures var vault := UserVault(old(store), userId);
        var name := NormalizeLabel(Some(labelInput));
        && (!HasLabel(vault, name) ==>
              reply == LabelNotFound(name) && store == old(store)[userId := vault] && written == old(written))
        && (HasLabel(vault, name) ==>
              && reply == Removed(name)
              && (exists first :: ValidPick(vault, name, first)
                    && store == old(store)[userId := RemoveFrom(vault, name, first)])
              && written == old(written) + [store])
      ensures WellShaped(store)
      ensures VaultsConsistent(old(store)) ==> VaultsConsistent(store)
    {
      var userData := GetUserVault(userId);
      var name := NormalizeLabel(Some(labelInput));
      if !HasLabel(userData, name) {
        return LabelNotFound(name);
      }
      var first := FirstKey(SecretsOf(userData) - {name});
      RemainingPick(userData, name, first);
      userData := RemoveFrom(userData, name, first);
      Commit(userId, userData);
      reply := Removed(name);
    }

    /** `handleSetDefault`: a label without a truthy secret is reported missing
        without a write; otherwise it becomes the default and the store is
        written once. */
    method HandleSetDefault(userId: string, labelInput: string) returns (reply: Reply)
      requires WellShaped(store)
      modifies this`store, this`written
      ensures var vault := UserVault(old(store), userId);
        var name := NormalizeLabel(Some(labelInput));
        && (!HasLabel(vault, name) ==>
              reply == LabelNotFound(name) && store == old(store)[userId := vault] && written == old(written))
        && (HasLabel(vault, name) ==>
              && reply == DefaultSet(name)
              && store == old(store)[userId := SetDefaultIn(vault, name)]
              && written == old(written) + [store])
      ensures WellShaped(store)
      ensures VaultsConsistent(old(store)) ==> VaultsConsistent(store)
    {
      var userData := GetUserVault(userId);
      var name := NormalizeLabel(Some(labelInput));
      if !HasLabel(userData, name) {
        return LabelNotFound(name);
      }
      userData := SetDefaultIn(userData, name);
      Commit(userId, userData);
      reply := DefaultSet(name);
    }

    /** `handleCode`: the selection by priority, then generation; it never writes. */
    method HandleCode(userId: string, labelInput: Option<string>, secretInput: Option<string>) returns (reply: Reply)
      requires WellShaped(store)
      modifies this`store
      ensures reply == CodeReply(prims, codec, generate, UserVault(old(store), userId), labelInput, secretInput)
      ensures store == old(store)[userId := UserVault(old(store), userId)]
      ensures WellShaped(store)
    {
      var userData := GetUserVault(userId);
      var name := NormalizeLabel(labelInput);
      var rawSecret := NormalizeSecret(secretInput);
      var secretToUse: Value := Str("");
      var source: CodeSource := NoSource;
      if rawSecret != "" {
        if !IsLikelyBase32(rawSecret) {
          return InvalidSecret;
        }
        if generate(Str(rawSecret)).None? {
          return ManualSecretRejected;
        }
        secretToUse := Str(rawSecret);
        source := ManualSecret;
      } else if name != "" {
        source := FromLabel(name);
        var decrypted := Decrypt(prims, codec, Prop(SecretsOf(userData), name));
        if decrypted.Err? {
          return DecryptFailed(false);
        }
        secretToUse := decrypted.value;
      } else if Truthy(DefaultOf(userData)) {
        source := FromDefault(DefaultOf(userData));
        var decrypted := Decrypt(prims, codec, Prop(SecretsOf(userData), ToJsString(DefaultOf(userData))));
        if decrypted.Err? {
          return DecryptFailed(true);
        }
        secretToUse := decrypted.value;
      }
      if !Truthy(secretToUse) {
        return SecretNotFound;
      }
      var code := generate(secretToUse);
      if code.None? {
        return GeneratorThrew;
      }
      if !IsValidCodeFormat(Some(code.value)) {
        return BadCodeFormat;
      }
      reply := Code(code.value, source);
    }

    /** `handleStatus`: the number of labels, the default if set, and whether
        encryption is on. */
    method HandleStatus(userId: string) returns (reply: Reply)
      requires WellShaped(store)
      modifies this`store
      ensures var vault := UserVault(old(store), userId);
        && reply == Status(|SecretsOf(vault)|,
             if Truthy(DefaultOf(vault)) then Some(DefaultOf(vault)) else None, EncryptionEnabled(codec))
        && store == old(store)[userId := vault]
      ensures WellShaped(store)
    {
      var userData := GetUserVault(userId);
      var labels := SecretsOf(userData).Keys;
      var defaultLabel := if Truthy(DefaultOf(userData)) then Some(DefaultOf(userData)) else None;
      reply := Status(|SecretsOf(userData)|, defaultLabel, EncryptionEnabled(codec));
    }
  }

  // ---------------------------------------------------------------------------
  // Property reads that reach Object.prototype

  /** The members of `Object.prototype` whose names are valid labels: the only
      lowercase ones. */
  const InheritedLabels: set<string> := {"constructor", "__proto__"}

  /** `constructor` is a valid label, and typing it yields that label. */
  lemma ConstructorIsLabel()
    ensures IsValidLabel("constructor") && NormalizeLabel(Some("constructor")) == "constructor"
  {
    ValidLabelIsNormal("constructor");
  }

  /** `__proto__` is a valid label, and typing it yields that label. */
  lemma ProtoIsLabel()
    ensures IsValidLabel("__proto__") && NormalizeLabel(Some("__proto__")) == "__proto__"
  {
    ValidLabelIsNormal("__proto__");
  }

  /** Both inherited names are valid labels that normalise to themselves. */
  lemma InheritedLabelsAreLabels(name: string)
    requires name in InheritedLabels
    ensures IsValidLabel(name) && NormalizeLabel(Some(name)) == name
  {
    if name == "constructor" {
      ConstructorIsLabel();
    } else {
      assert name == "__proto__";
      ProtoIsLabel();
    }
  }

  /** `secrets[label]` on a plain object as the code reads it: an own property,
      else the inherited member (a function or `Object.prototype`, both truthy,
      stood for here by an empty object), else undefined. */
  function LookupAsWritten(secrets: map<string, Value>, name: string): (r: Value)
    ensures name in secrets ==> r == secrets[name]
    ensures name !in secrets && name in InheritedLabels ==> Truthy(r)
  {
    if name in secrets then secrets[name]
    else if name in InheritedLabels then Obj(map[])
    else Undefined
  }

  /** Off the two inherited names, or on an own property, the lookup as
      written is the own-property read. */
  lemma LookupAgrees(secrets: map<string, Value>, name: string)
    requires name in secrets || name !in InheritedLabels
    ensures LookupAsWritten(secrets, name) == Prop(secrets, name)
  {
  }

  /** `secrets` as the code's reads see it: its own properties together with
      the inherited members it does not shadow. */
  function InheritedView(secrets: map<string, Value>): (r: map<string, Value>)
    ensures r.Keys == secrets.Keys + InheritedLabels
    ensures forall k :: k in r ==> r[k] == LookupAsWritten(secrets, k)
  {
    map k | k in secrets.Keys + InheritedLabels :: LookupAsWritten(secrets, k)
  }

  /** Every read of the view is the lookup as written. */
  lemma InheritedViewAgrees(secrets: map<string, Value>, name: string)
    ensures Prop(InheritedView(secrets), name) == LookupAsWritten(secrets, name)
  {
  }

  /** The truthiness check of `handleRemove` and `handleSetDefault` as written. */
  predicate HasLabelAsWritten(v: Value, name: string)
    requires IsVault(v)
  {
    Truthy(LookupAsWritten(SecretsOf(v), name))
  }

  /** `handleRemove` as written: the new vault, or `None` when "not found".
      Deleting a name that is not an own property changes nothing. */
  function RemoveAsWritten(v: Value, name: string, first: Option<string>): (r: Option<Value>)
    requires IsVault(v) && ValidPick(v, name, first)
    ensures r.Some? <==> HasLabelAsWritten(v, name)
    ensures name !in InheritedLabels ==> (r.Some? <==> HasLabel(v, name))
    ensures r.Some? ==> r.value == RemoveFrom(v, name, first)
  {
    if HasLabelAsWritten(v, name) then Some(RemoveFrom(v, name, first)) else None
  }

  /** As written, `/auth-remove label:constructor` on an empty vault replies
      "removed" and writes the store, though no secret was there to remove. */
  lemma RemoveMissingAcceptedAsWritten()
    ensures var v := Obj(map["secrets" := Obj(map[])]);
      && NormalizeLabel(Some("constructor")) == "constructor"
      && !HasLabel(v, "constructor")
      && RemoveAsWritten(v, "constructor", None).Some?
      && SecretsOf(RemoveAsWritten(v, "constructor", None).value) == SecretsOf(v)
  {
    ConstructorIsLabel();
  }

  /** With own-property reads, a remove that goes ahead removes exactly one
      stored secret. */
  lemma RemoveRemovesOne(v: Value, name: string, first: Option<string>)
    requires IsVault(v) && ValidPick(v, name, first) && HasLabel(v, name)
    ensures name in SecretsOf(v)
    ensures |SecretsOf(RemoveFrom(v, name, first))| == |SecretsOf(v)| - 1
  {
    var r := RemoveFrom(v, name, first);
    assert SecretsOf(r).Keys == SecretsOf(v).Keys - {name};
  }

  /** `handleCode` as written: the reads of `secrets[label]` and
      `secrets[defaultLabel]` reach the inherited members. */
  function CodeReplyAsWritten(p: Primitives, c: Codec, generate: Value -> Option<string>,
                              v: Value, labelInput: Option<string>, secretInput: Option<string>): (r: Reply)
    requires IsVault(v)
    ensures r == CodeReply(p, c, generate, WithSecrets(v, InheritedView(SecretsOf(v))), labelInput, secretInput)
  {
    CodeReply(p, c, generate, WithSecrets(v, InheritedView(SecretsOf(v))), labelInput, secretInput)
  }

  /** As written, `/auth-code label:constructor` (or `__proto__`) for a user
      with no secret of that name hands the inherited member to the generator
      instead of replying "not found", which `MissingLabelNotFound` gives with
      own-property reads. */
  lemma CodeInheritedAsWritten(p: Primitives, c: Codec, generate: Value -> Option<string>,
                               v: Value, name: string)
    requires IsVault(v) && name in InheritedLabels && name !in SecretsOf(v)
    ensures CodeReplyAsWritten(p, c, generate, v, Some(name), None)
         == Finish(Selected(Obj(map[]), FromLabel(name)), generate)
    ensures CodeReplyAsWritten(p, c, generate, v, Some(name), None) != SecretNotFound
  {
    InheritedLabelsAreLabels(name);
    assert NormalizeSecret(None) == "";
    InheritedSelectedAsWritten(p, c, generate, v, name);
  }

  /** The selection as written for an inherited name with no own secret picks
      the inherited member. */
  lemma InheritedSelectedAsWritten(p: Primitives, c: Codec, generate: Value -> Option<string>,
                                   v: Value, name: string)
    requires IsVault(v) && name in InheritedLabels && name !in SecretsOf(v)
    ensures SelectSecret(p, c, generate, WithSecrets(v, InheritedView(SecretsOf(v))), name, "")
         == Selected(Obj(map[]), FromLabel(name))
  {
    var w := WithSecrets(v, InheritedView(SecretsOf(v)));
    assert Prop(SecretsOf(w), name) == Obj(map[]) by {
      InheritedViewAgrees(SecretsOf(v), name);
    }
    assert !IsEncryptedPayload(Obj(map[]));
  }

  /** On a vault whose default is valid, and for a label that is not an
      inherited name, the code as written replies as the own-property model. */
  lemma CodeAgreesOffInherited(p: Primitives, c: Codec, generate: Value -> Option<string>,
                               v: Value, labelInput: Option<string>, secretInput: Option<string>)
    requires IsVault(v) && DefaultValid(v) && NormalizeLabel(labelInput) !in InheritedLabels
    ensures CodeReplyAsWritten(p, c, generate, v, labelInput, secretInput) == CodeReply(p, c, generate, v, labelInput, secretInput)
  {
    var w := WithSecrets(v, InheritedView(SecretsOf(v)));
    var name := NormalizeLabel(labelInput);
    InheritedViewAgrees(SecretsOf(v), name);
    LookupAgrees(SecretsOf(v), name);
    assert DefaultOf(w) == DefaultOf(v);
    if Truthy(DefaultOf(v)) {
      var d := ToJsString(DefaultOf(v));
      InheritedViewAgrees(SecretsOf(v), d);
      LookupAgrees(SecretsOf(v), d);
    }
  }

  /** `handleSetDefault` as written: the new vault, or `None` when "not found". */
  function SetDefaultAsWritten(v: Value, name: string): (r: Option<Value>)
    requires IsVault(v)
    ensures r.Some? <==> HasLabelAsWritten(v, name)
    ensures name !in InheritedLabels ==> (r.Some? <==> HasLabel(v, name))
    ensures r.Some? ==> r.value == SetDefaultIn(v, name)
  {
    if HasLabelAsWritten(v, name) then Some(SetDefaultIn(v, name)) else None
  }

  /** As written, `/auth-set-default label:constructor` on an empty vault is
      accepted and leaves a default that names no secret. */
  lemma SetDefaultDanglingAsWritten()
    ensures var v := Obj(map["secrets" := Obj(map[])]);
      && NormalizeLabel(Some("constructor")) == "constructor"
      && SetDefaultAsWritten(v, "constructor").Some?
      && !DefaultValid(SetDefaultAsWritten(v, "constructor").value)
  {
    ConstructorIsLabel();
  }

  /** With own-property reads, set-default accepts only a label that has a
      secret, and so always keeps the invariant. */
  lemma SetDefaultKeepsInvariant(v: Value, name: string)
    requires IsVault(v) && HasLabel(v, name)
    ensures DefaultValid(SetDefaultIn(v, name))
  {
  }

  /** `secrets[label] = stored` on a plain object as written: assigning a string
      to `__proto__`, when there is no own property of that name, is ignored. */
  function AssignSecretAsWritten(secrets: map<string, Value>, name: string, stored: Value): (r: map<string, Value>)
    ensures name != "__proto__" ==> r == secrets[name := stored]
    ensures name == "__proto__" && name !in secrets && stored.Str? ==> r == secrets
  {
    if name == "__proto__" && name !in secrets && !IsObjectType(stored) then secrets
    else secrets[name := stored]
  }

  /** The save mutation as written. */
  function SaveIntoAsWritten(v: Value, name: string, stored: string): (r: Value)
    requires IsVault(v)
    ensures IsVault(r)
    ensures SecretsOf(r) == AssignSecretAsWritten(SecretsOf(v), name, Str(stored))
    ensures !Truthy(DefaultOf(v)) ==> DefaultOf(r) == Str(name)
    ensures name != "__proto__" ==> r == SaveInto(v, name, stored)
  {
    var saved := WithSecrets(v, AssignSecretAsWritten(SecretsOf(v), name, Str(stored)));
    if !Truthy(DefaultOf(saved)) then WithDefault(saved, Str(name)) else saved
  }

  /** As written, saving under the valid label `__proto__` into an empty vault
      reports success but stores no secret, and leaves a dangling default. */
  lemma SaveProtoLostAsWritten(stored: string)
    ensures var v := Obj(map["secrets" := Obj(map[])]);
      && IsValidLabel("__proto__")
      && SecretsOf(SaveIntoAsWritten(v, "__proto__", stored)) == map[]
      && !DefaultValid(SaveIntoAsWritten(v, "__proto__", stored))
  {
    ProtoIsLabel();
  }

  /** With own-property writes, a save always stores the secret under its label. */
  lemma SaveStoresSecret(v: Value, name: string, stored: string)
    requires IsVault(v)
    ensures name in SecretsOf(SaveInto(v, name, stored))
    ensures SecretsOf(SaveInto(v, name, stored))[name] == Str(stored)
    ensures !Truthy(DefaultOf(v)) ==> DefaultValid(SaveInto(v, name, stored))
  {
  }
}
