/** The master password: set once, stored only as the encoder's hash, and
    checked through the encoder's `matches`. The settings table is a map
    from setting key to value. */
module Settings {
  import opened Outcomes

  type SettingStore = map<string, string>

  const MasterPasswordKey: string := "MASTER_PASSWORD"

  /** The password encoder, opaque: one hash function and its check. */
  datatype Encoder = Encoder(encode: string -> string, matches: (string, string) -> bool)

  /** An encoder that accepts each password against its own hash. */
  ghost predicate Sound(enc: Encoder) {
    forall p :: enc.matches(p, enc.encode(p))
  }

  /** `isMasterPasswordSet`: whether the settings table holds the master key;
      the set-once and verify contracts below are stated through it. */
  function IsMasterPasswordSet(store: SettingStore): (r: bool)
    ensures r <==> MasterPasswordKey in store.Keys
    ensures r ==> |store| > 0
  {
    MasterPasswordKey in store
  }

  /** `setMasterPassword`: refused once a password exists; otherwise the
      hash is saved under the master key. */
  function SetMasterPassword(store: SettingStore, enc: Encoder, password: string): (r: (Result<Unit>, SettingStore))
    ensures IsMasterPasswordSet(r.1)
    ensures IsMasterPasswordSet(store) ==>
              r.0 == Threw(IllegalState("Master password has already been set.")) && r.1 == store
    ensures !IsMasterPasswordSet(store) ==> r.0.Ok? && r.1[MasterPasswordKey] == enc.encode(password)
    ensures forall k :: k != MasterPasswordKey ==> (k in r.1 <==> k in store) && (k in store ==> r.1[k] == store[k])
  {
    if IsMasterPasswordSet(store) then (Threw(IllegalState("Master password has already been set.")), store)
    else (Ok(Unit), store[MasterPasswordKey := enc.encode(password)])
  }

  /** `verifyMasterPassword`: false with nothing stored, else the encoder's
      verdict on the stored hash. */
  function VerifyMasterPassword(store: SettingStore, enc: Encoder, raw: string): (b: bool)
    ensures !IsMasterPasswordSet(store) ==> !b
    ensures IsMasterPasswordSet(store) ==> (b <==> enc.matches(raw, store[MasterPasswordKey]))
  {
    if MasterPasswordKey !in store then false
    else enc.matches(raw, store[MasterPasswordKey])
  }

  /** With a sound encoder, the password just set is accepted, and a
      password is accepted exactly when the encoder matches it against the
      hash of the one set. */
  lemma SetThenVerify(store: SettingStore, enc: Encoder, password: string, raw: string)
    requires !IsMasterPasswordSet(store)
    ensures var after := SetMasterPassword(store, enc, password).1;
            VerifyMasterPassword(after, enc, raw) <==> enc.matches(raw, enc.encode(password))
    ensures Sound(enc) ==> VerifyMasterPassword(SetMasterPassword(store, enc, password).1, enc, password)
  {
  }

  // ---------------------------------------------------------------- call sequences

  datatype SettingsCall = IsSetCall | SetCall(password: string) | VerifyCall(raw: string)

  /** The store after a sequence of calls, failed sets included. */
  function RunSettings(store: SettingStore, enc: Encoder, calls: seq<SettingsCall>): SettingStore
    decreases |calls|
  {
    if |calls| == 0 then store
    else
      var next := if calls[0].SetCall? then SetMasterPassword(store, enc, calls[0].password).1 else store;
      RunSettings(next, enc, calls[1..])
  }

  /** The password of the first set in a call sequence. */
  function FirstSet(calls: seq<SettingsCall>): (r: Option<string>)
    ensures r.None? <==> forall i :: 0 <= i < |calls| ==> !calls[i].SetCall?
  {
    if |calls| == 0 then None
    else if calls[0].SetCall? then Some(calls[0].password)
    else
      var r := FirstSet(calls[1..]);
      assert forall i :: 1 <= i < |calls| ==> calls[i] == calls[1..][i - 1];
      r
  }

  /** Set-once: a stored hash survives every later call, and on an empty
      store the hash that remains is the one of the first set; no other
      setting changes. */
  lemma {:induction false} SetOnce(store: SettingStore, enc: Encoder, calls: seq<SettingsCall>)
    ensures var after := RunSettings(store, enc, calls);
            && (IsMasterPasswordSet(store) ==> after == store)
            && (!IsMasterPasswordSet(store) && FirstSet(calls).Some? ==>
                  IsMasterPasswordSet(after) && after[MasterPasswordKey] == enc.encode(FirstSet(calls).value))
            && (!IsMasterPasswordSet(store) && FirstSet(calls).None? ==> after == store)
    ensures var after := RunSettings(store, enc, calls);
            forall k :: k != MasterPasswordKey ==> (k in after <==> k in store) && (k in store ==> after[k] == store[k])
    decreases |calls|
  {
    if |calls| > 0 {
      var next := if calls[0].SetCall? then SetMasterPassword(store, enc, calls[0].password).1 else store;
      SetOnce(next, enc, calls[1..]);
    }
  }
}
