/** Two-phase data-key rotation: read and re-encrypt every stored secret first, and change rows
    only when all of them could be read. Encryption and signing are abstract functions with the
    usual laws; randomness is a nonce that may be anything. */
module KeyRotation {
  import opened Wrappers

  type Key = string

  /** The salts keys are derived with: two for credentials, one for authenticator seeds. */
  datatype Salt = CurrentSalt | CompatSalt | SeedSalt

  datatype Crypto = Crypto(
    seal: (Key, Salt, nat, string) -> string,
    open: (Key, Salt, string) -> Option<string>,
    sign: (Key, int, nat, nat, nat) -> string)

  /** Opening undoes sealing under the same key and salt, and under any other either refuses the
      token or gives the same plaintext; tokens and signatures are not empty. */
  ghost predicate Lawful(c: Crypto) {
    && (forall k: Key, s: Salt, n: nat, p: string :: c.open(k, s, c.seal(k, s, n, p)) == Some(p))
    && (forall k: Key, s: Salt, other: Key, salt: Salt, n: nat, p: string ::
          c.open(other, salt, c.seal(k, s, n, p)) in {None, Some(p)})
    && (forall k: Key, s: Salt, n: nat, p: string :: c.seal(k, s, n, p) != "")
    && (forall k: Key, v: int, a: nat, w: nat, u: nat :: c.sign(k, v, a, w, u) != "")
  }

  /** The target keys and the prior ones still accepted for reading. */
  datatype Ring = Ring(target: Key, legacy: seq<Key>, signing: Key, legacySigning: seq<Key>)

  /** The ring after the prior keys are withdrawn. */
  function Retired(ring: Ring): Ring {
    ring.(legacy := [], legacySigning := [])
  }

  /** The keys tried for reading, in their order. */
  function Keys(ring: Ring): seq<Key> {
    [ring.target] + ring.legacy
  }

  // ---------- Credentials ----------

  predicate Truthy(s: Option<string>) {
    s.Some? && s.value != ""
  }

  function TryKeys(c: Crypto, keys: seq<Key>, token: string): Option<string> {
    if keys == [] then None
    else if c.open(keys[0], CurrentSalt, token).Some? then c.open(keys[0], CurrentSalt, token)
    else if c.open(keys[0], CompatSalt, token).Some? then c.open(keys[0], CompatSalt, token)
    else TryKeys(c, keys[1..], token)
  }

  function Decrypt(c: Crypto, ring: Ring, stored: Option<string>): Option<string> {
    if !Truthy(stored) then None else TryKeys(c, Keys(ring), stored.value)
  }

  /** Nothing is stored for an empty plaintext. */
  function Encrypt(c: Crypto, ring: Ring, nonce: nat, plaintext: string): Option<string> {
    if plaintext == "" then None else Some(c.seal(ring.target, CurrentSalt, nonce, plaintext))
  }

  lemma EncryptRoundTrip(c: Crypto, ring: Ring, nonce: nat, plaintext: string)
    requires Lawful(c)
    ensures Decrypt(c, Retired(ring), Encrypt(c, ring, nonce, plaintext)) ==
              if plaintext == "" then None else Some(plaintext)
    ensures Truthy(Encrypt(c, ring, nonce, plaintext)) <==> plaintext != ""
  {
  }

  /** A token is read as its own plaintext by whatever ring holds the key it was sealed with, and
      by no ring as anything else. */
  lemma {:induction false} TokenIsRead(c: Crypto, keys: seq<Key>, k: Key, salt: Salt, nonce: nat, plaintext: string)
    requires Lawful(c) && salt in {CurrentSalt, CompatSalt}
    ensures TryKeys(c, keys, c.seal(k, salt, nonce, plaintext)) in {None, Some(plaintext)}
    ensures k in keys ==> TryKeys(c, keys, c.seal(k, salt, nonce, plaintext)) == Some(plaintext)
  {
    if keys != [] {
      var token := c.seal(k, salt, nonce, plaintext);
      assert c.open(keys[0], CurrentSalt, token) in {None, Some(plaintext)};
      assert c.open(keys[0], CompatSalt, token) in {None, Some(plaintext)};
      TokenIsRead(c, keys[1..], k, salt, nonce, plaintext);
    }
  }

  /** The column holds a plaintext sealed under one of the ring's keys, with the current salt or the
      historical one. */
  ghost predicate Holds(c: Crypto, ring: Ring, stored: Option<string>, plaintext: string) {
    && plaintext != ""
    && exists k: Key, salt: Salt, nonce: nat :: k in Keys(ring) && salt in {CurrentSalt, CompatSalt}
         && stored == Some(c.seal(k, salt, nonce, plaintext))
  }

  lemma HeldIsRead(c: Crypto, ring: Ring, stored: Option<string>, plaintext: string)
    requires Lawful(c) && Holds(c, ring, stored, plaintext)
    ensures Truthy(stored) && Decrypt(c, ring, stored) == Some(plaintext)
  {
    var k: Key, salt: Salt, nonce: nat :| k in Keys(ring) && salt in {CurrentSalt, CompatSalt}
      && stored == Some(c.seal(k, salt, nonce, plaintext));
    TokenIsRead(c, Keys(ring), k, salt, nonce, plaintext);
  }

  /** What the application stored under an earlier ring, the current one reads back if it still
      accepts the key of that time, and never as anything else. */
  lemma StoredReadsBack(c: Crypto, prior: Ring, ring: Ring, nonce: nat, plaintext: string)
    requires Lawful(c)
    ensures Decrypt(c, ring, Encrypt(c, prior, nonce, plaintext)) in {None, Some(plaintext)}
    ensures prior.target in Keys(ring) && plaintext != "" ==>
              && Holds(c, ring, Encrypt(c, prior, nonce, plaintext), plaintext)
              && Decrypt(c, ring, Encrypt(c, prior, nonce, plaintext)) == Some(plaintext)
  {
    if plaintext != "" {
      TokenIsRead(c, Keys(ring), prior.target, CurrentSalt, nonce, plaintext);
    }
  }

  // ---------- Authenticator seeds ----------

  const PREFIX := "mfa:v1:"

  function TrySeedKeys(c: Crypto, keys: seq<Key>, token: string): Option<string> {
    if keys == [] then None
    else if c.open(keys[0], SeedSalt, token).Some? then c.open(keys[0], SeedSalt, token)
    else TrySeedKeys(c, keys[1..], token)
  }

  /** What loading the column gives; Err where it raises. Seeds stored before encryption was
      introduced have no prefix and are read as they are. */
  function LoadSeed(c: Crypto, ring: Ring, stored: string): Result<Option<string>, ()> {
    if stored == "" then Ok(None)
    else if !(PREFIX <= stored) then Ok(Some(stored))
    else
      match TrySeedKeys(c, Keys(ring), stored[|PREFIX|..])
      case Some(seed) => Ok(Some(seed))
      case None => Err(())
  }

  /** Nothing is stored for an empty seed. */
  function StoreSeed(c: Crypto, ring: Ring, nonce: nat, seed: string): Option<string> {
    if seed == "" then None else Some(PREFIX + c.seal(ring.target, SeedSalt, nonce, seed))
  }

  lemma {:induction false} SeedTokenIsRead(c: Crypto, keys: seq<Key>, k: Key, nonce: nat, seed: string)
    requires Lawful(c)
    ensures TrySeedKeys(c, keys, c.seal(k, SeedSalt, nonce, seed)) in {None, Some(seed)}
    ensures k in keys ==> TrySeedKeys(c, keys, c.seal(k, SeedSalt, nonce, seed)) == Some(seed)
  {
    if keys != [] {
      assert c.open(keys[0], SeedSalt, c.seal(k, SeedSalt, nonce, seed)) in {None, Some(seed)};
      SeedTokenIsRead(c, keys[1..], k, nonce, seed);
    }
  }

  /** A seed stored under an earlier ring loads as itself under every ring that still accepts the
      key of that time; under any other, loading raises or still gives that seed. */
  lemma SeedRoundTrip(c: Crypto, prior: Ring, ring: Ring, nonce: nat, seed: string)
    requires Lawful(c) && seed != ""
    ensures StoreSeed(c, prior, nonce, seed).Some?
    ensures LoadSeed(c, ring, StoreSeed(c, prior, nonce, seed).value) in {Err(()), Ok(Some(seed))}
    ensures prior.target in Keys(ring) ==> LoadSeed(c, ring, StoreSeed(c, prior, nonce, seed).value) == Ok(Some(seed))
  {
    var token := c.seal(prior.target, SeedSalt, nonce, seed);
    assert (PREFIX + token)[|PREFIX|..] == token;
    SeedTokenIsRead(c, Keys(ring), prior.target, nonce, seed);
  }

  // ---------- Copilot identities ----------

  /** The version an identity carries. `Text` is a non-empty string, with the number it reads as. */
  datatype Version = Missing | Null | EmptyText | Number(n: int) | Text(parsed: Option<int>)

  datatype Signature = NoSignature | SignatureText(text: string) | OtherSignature

  datatype Extra = Extra(kind: string, systemManaged: bool, version: Version, signature: Signature, others: string)

  datatype Agent = Agent(id: nat, workspace: nat, user: nat, extra: Extra)

  /** The version as the identity check reads it: anything empty or absent counts as zero. */
  function LenientVersion(v: Version): Option<int> {
    match v
    case Number(n) => Some(n)
    case Text(parsed) => parsed
    case _ => Some(0)
  }

  /** The version as the rotation reads it, which raises where there is none. */
  function StrictVersion(v: Version): Option<int> {
    match v
    case Number(n) => Some(n)
    case Text(parsed) => parsed
    case _ => None
  }

  predicate HasMarker(a: Agent) {
    a.extra.kind == "core_copilot" && a.extra.systemManaged
    && (a.extra.signature.OtherSignature? || (a.extra.signature.SignatureText? && a.extra.signature.text != ""))
  }

  predicate SignedByAny(c: Crypto, keys: seq<Key>, a: Agent, version: int, text: string) {
    exists i :: 0 <= i < |keys| && keys[i] != "" && text == c.sign(keys[i], version, a.id, a.workspace, a.user)
  }

  predicate IsCoreCopilot(c: Crypto, ring: Ring, a: Agent) {
    && a.extra.kind == "core_copilot" && a.extra.systemManaged
    && LenientVersion(a.extra.version).Some?
    && a.extra.signature.SignatureText? && a.extra.signature.text != ""
    && SignedByAny(c, [ring.signing] + ring.legacySigning, a, LenientVersion(a.extra.version).value,
                   a.extra.signature.text)
  }

  // ---------- Rows, and when each can be read ----------

  datatype LlmRow = LlmRow(apiKey: Option<string>, rest: string)

  type Credentials = map<string, Option<string>>

  datatype BankRow = BankRow(credentials: Option<Credentials>, rest: string)

  /** `seed` is the stored column. */
  datatype UserRow = UserRow(seed: Option<string>, rest: string)

  predicate LlmReadable(c: Crypto, ring: Ring, row: LlmRow) {
    Truthy(row.apiKey) ==> Decrypt(c, ring, row.apiKey).Some?
  }

  const ACCESS := "access_url_enc"
  const SESSION := "session_id_enc"

  function Dict(row: BankRow): Credentials {
    if row.credentials.Some? then row.credentials.value else map[]
  }

  predicate FieldSet(creds: Credentials, field: string) {
    field in creds && Truthy(creds[field])
  }

  predicate FieldReadable(c: Crypto, ring: Ring, creds: Credentials, field: string) {
    FieldSet(creds, field) ==> Decrypt(c, ring, creds[field]).Some?
  }

  predicate BankReadable(c: Crypto, ring: Ring, row: BankRow) {
    FieldReadable(c, ring, Dict(row), ACCESS) && FieldReadable(c, ring, Dict(row), SESSION)
  }

  predicate AgentReadable(c: Crypto, ring: Ring, a: Agent) {
    HasMarker(a) ==> IsCoreCopilot(c, ring, a) && StrictVersion(a.extra.version).Some?
  }

  predicate UserReadable(c: Crypto, ring: Ring, row: UserRow) {
    row.seed.Some? ==>
      match LoadSeed(c, ring, row.seed.value)
      case Ok(seed) => Truthy(seed)
      case Err(_) => false
  }

  // ---------- What rotating a row means ----------

  /** `after` is a fresh encryption of what `before` decrypts to. */
  ghost predicate Reencrypted(c: Crypto, ring: Ring, before: Option<string>, after: Option<string>) {
    && Decrypt(c, ring, before).Some?
    && exists nonce: nat :: after == Encrypt(c, ring, nonce, Decrypt(c, ring, before).value)
  }

  ghost predicate LlmRotated(c: Crypto, ring: Ring, before: LlmRow, after: LlmRow) {
    && after.rest == before.rest
    && if Truthy(before.apiKey) then Reencrypted(c, ring, before.apiKey, after.apiKey) else after == before
  }

  ghost predicate CredentialsRotated(
    c: Crypto, ring: Ring, before: Credentials, after: Credentials, fields: set<string>)
  {
    && after.Keys == before.Keys
    && forall f :: f in before ==>
         if f in fields && Truthy(before[f]) then Reencrypted(c, ring, before[f], after[f]) else after[f] == before[f]
  }

  ghost predicate BankRotated(c: Crypto, ring: Ring, before: BankRow, after: BankRow) {
    && after.rest == before.rest
    && if FieldSet(Dict(before), ACCESS) || FieldSet(Dict(before), SESSION)
       then after.credentials.Some?
            && CredentialsRotated(c, ring, Dict(before), after.credentials.value, {ACCESS, SESSION})
       else after == before
  }

  function Resigned(c: Crypto, ring: Ring, a: Agent): Agent
    requires AgentReadable(c, ring, a)
  {
    if !HasMarker(a) then a
    else
      var version := StrictVersion(a.extra.version).value;
      a.(extra := a.extra.(signature := SignatureText(c.sign(ring.signing, version, a.id, a.workspace, a.user))))
  }

  ghost predicate UserRotated(c: Crypto, ring: Ring, before: UserRow, after: UserRow)
    requires UserReadable(c, ring, before)
  {
    && after.rest == before.rest
    && if before.seed.None? then after == before
       else
         var seed := LoadSeed(c, ring, before.seed.value).value.value;
         exists nonce: nat :: after.seed == StoreSeed(c, ring, nonce, seed)
  }

  // ---------- In terms of the columns alone ----------

  /** Some key the ring accepts opens the credential, with the current salt or the historical one. */
  ghost predicate Opens(c: Crypto, ring: Ring, token: string) {
    exists k: Key :: (k == ring.target || k in ring.legacy)
      && (c.open(k, CurrentSalt, token).Some? || c.open(k, CompatSalt, token).Some?)
  }

  lemma {:induction false} TryKeysMeaning(c: Crypto, keys: seq<Key>, token: string)
    ensures TryKeys(c, keys, token).Some? <==>
            exists k: Key :: k in keys
              && (c.open(k, CurrentSalt, token).Some? || c.open(k, CompatSalt, token).Some?)
  {
    if keys != [] {
      TryKeysMeaning(c, keys[1..], token);
    }
  }

  ghost predicate CredentialFine(c: Crypto, ring: Ring, stored: Option<string>) {
    stored == None || stored == Some("") || Opens(c, ring, stored.value)
  }

  lemma CredentialMeaning(c: Crypto, ring: Ring, stored: Option<string>)
    ensures CredentialFine(c, ring, stored) <==> (Truthy(stored) ==> Decrypt(c, ring, stored).Some?)
  {
    if Truthy(stored) {
      TryKeysMeaning(c, Keys(ring), stored.value);
    }
  }

  ghost predicate BankFine(c: Crypto, ring: Ring, row: BankRow) {
    forall f :: f in {"access_url_enc", "session_id_enc"} && row.credentials.Some? && f in row.credentials.value ==>
      CredentialFine(c, ring, row.credentials.value[f])
  }

  lemma BankMeaning(c: Crypto, ring: Ring, row: BankRow)
    ensures BankFine(c, ring, row) <==> BankReadable(c, ring, row)
  {
    forall f | f in {"access_url_enc", "session_id_enc"} && f in Dict(row)
      ensures CredentialFine(c, ring, Dict(row)[f]) <==> FieldReadable(c, ring, Dict(row), f)
    {
      CredentialMeaning(c, ring, Dict(row)[f]);
    }
    assert ACCESS == "access_url_enc" && SESSION == "session_id_enc";
  }

  /** The first key that opens the token gives a seed. */
  ghost predicate FirstOpens(c: Crypto, keys: seq<Key>, token: string, seed: string) {
    exists i :: 0 <= i < |keys| && c.open(keys[i], SeedSalt, token) == Some(seed)
      && forall j :: 0 <= j < i ==> c.open(keys[j], SeedSalt, token) == None
  }

  lemma {:induction false} TrySeedKeysMeaning(c: Crypto, keys: seq<Key>, token: string, seed: string)
    ensures TrySeedKeys(c, keys, token) == Some(seed) <==> FirstOpens(c, keys, token, seed)
  {
    if keys != [] {
      var rest := keys[1..];
      TrySeedKeysMeaning(c, rest, token, seed);
      if FirstOpens(c, rest, token, seed) && c.open(keys[0], SeedSalt, token) == None {
        var i :| 0 <= i < |rest| && c.open(rest[i], SeedSalt, token) == Some(seed)
          && forall j :: 0 <= j < i ==> c.open(rest[j], SeedSalt, token) == None;
        assert keys[i + 1] == rest[i];
        forall j | 0 <= j < i + 1 ensures c.open(keys[j], SeedSalt, token) == None {
          assert j > 0 ==> keys[j] == rest[j - 1];
        }
      }
      if FirstOpens(c, keys, token, seed) && c.open(keys[0], SeedSalt, token) == None {
        var i :| 0 <= i < |keys| && c.open(keys[i], SeedSalt, token) == Some(seed)
          && forall j :: 0 <= j < i ==> c.open(keys[j], SeedSalt, token) == None;
        assert rest[i - 1] == keys[i];
        assert forall j :: 0 <= j < i - 1 ==> rest[j] == keys[j + 1];
      }
    }
  }

  /** No seed, one from before encryption, or a token some key of the ring opens to a seed. */
  ghost predicate SeedFine(c: Crypto, ring: Ring, stored: Option<string>) {
    || stored == None
    || (stored.value != "" && !("mfa:v1:" <= stored.value))
    || exists token, seed :: stored == Some("mfa:v1:" + token) && seed != ""
         && FirstOpens(c, [ring.target] + ring.legacy, token, seed)
  }

  lemma SeedMeaning(c: Crypto, ring: Ring, row: UserRow)
    ensures SeedFine(c, ring, row.seed) <==> UserReadable(c, ring, row)
  {
    if row.seed.Some? && PREFIX <= row.seed.value {
      var token := row.seed.value[|PREFIX|..];
      assert row.seed.value == PREFIX + token;
      forall t | row.seed.value == "mfa:v1:" + t ensures t == token {
        assert ("mfa:v1:" + t)[|PREFIX|..] == t;
      }
      forall seed ensures TrySeedKeys(c, Keys(ring), token) == Some(seed) <==>
                          FirstOpens(c, Keys(ring), token, seed) {
        TrySeedKeysMeaning(c, Keys(ring), token, seed);
      }
    }
  }

  /** A row marked as the system's copilot and signed with anything at all. */
  ghost predicate Marked(a: Agent) {
    && a.extra.kind == "core_copilot" && a.extra.systemManaged
    && a.extra.signature != NoSignature && a.extra.signature != SignatureText("")
  }

  /** The version is a number, or text that reads as one. */
  ghost predicate HasVersion(a: Agent, version: int) {
    a.extra.version == Number(version) || a.extra.version == Text(Some(version))
  }

  /** The signature is the one a non-empty signing key of the ring gives for this row and version. */
  ghost predicate Genuine(c: Crypto, ring: Ring, a: Agent, version: int) {
    exists k: Key :: k != "" && (k == ring.signing || k in ring.legacySigning)
      && a.extra.signature == SignatureText(c.sign(k, version, a.id, a.workspace, a.user))
  }

  ghost predicate AgentFine(c: Crypto, ring: Ring, a: Agent) {
    Marked(a) ==> exists version :: HasVersion(a, version) && Genuine(c, ring, a, version)
  }

  lemma AgentMeaning(c: Crypto, ring: Ring, a: Agent)
    ensures AgentFine(c, ring, a) <==> AgentReadable(c, ring, a)
  {
    var keys := [ring.signing] + ring.legacySigning;
    if Marked(a) && AgentReadable(c, ring, a) {
      var version := LenientVersion(a.extra.version).value;
      var i :| 0 <= i < |keys| && keys[i] != ""
        && a.extra.signature.text == c.sign(keys[i], version, a.id, a.workspace, a.user);
      assert HasVersion(a, version) && Genuine(c, ring, a, version);
    }
    if Marked(a) && AgentFine(c, ring, a) {
      var version :| HasVersion(a, version) && Genuine(c, ring, a, version);
      var k: Key :| k != "" && (k == ring.signing || k in ring.legacySigning)
        && a.extra.signature == SignatureText(c.sign(k, version, a.id, a.workspace, a.user));
      assert k in keys;
      var i :| 0 <= i < |keys| && keys[i] == k;
    }
  }

  /** `after` is `before` with the signature that the signing key gives for its own version, if it is
      marked, and `before` itself if not. */
  ghost predicate AgentSigned(c: Crypto, ring: Ring, before: Agent, after: Agent) {
    && (forall version :: Marked(before) && HasVersion(before, version) ==>
          after == before.(extra := before.extra.(signature :=
                     SignatureText(c.sign(ring.signing, version, before.id, before.workspace, before.user)))))
    && (!Marked(before) ==> after == before)
  }

  lemma ResignedMeaning(c: Crypto, ring: Ring, a: Agent)
    requires AgentReadable(c, ring, a)
    ensures AgentSigned(c, ring, a, Resigned(c, ring, a))
  {
  }

  /** Which rows the application recognises as its copilot: marked, and signed by a non-empty signing key
      of the ring for their version, which counts as zero where there is none. */
  lemma RecognisedExactly(c: Crypto, ring: Ring, a: Agent)
    ensures IsCoreCopilot(c, ring, a) <==>
              && Marked(a)
              && exists version ::
                   (HasVersion(a, version) || (version == 0 && a.extra.version in {Missing, Null, EmptyText}))
                   && Genuine(c, ring, a, version)
  {
    var keys := [ring.signing] + ring.legacySigning;
    if IsCoreCopilot(c, ring, a) {
      var version := LenientVersion(a.extra.version).value;
      var i :| 0 <= i < |keys| && keys[i] != ""
        && a.extra.signature.text == c.sign(keys[i], version, a.id, a.workspace, a.user);
      assert Genuine(c, ring, a, version);
    }
    if version :| Marked(a)
                  && (HasVersion(a, version) || (version == 0 && a.extra.version in {Missing, Null, EmptyText}))
                  && Genuine(c, ring, a, version) {
      var k: Key :| k != "" && (k == ring.signing || k in ring.legacySigning)
        && a.extra.signature == SignatureText(c.sign(k, version, a.id, a.workspace, a.user));
      assert k in keys;
      var i :| 0 <= i < |keys| && keys[i] == k;
    }
  }

  /** What loading the seed column gives, and that nothing is stored for an empty plaintext or seed. */
  lemma SeedLoadsExactly(c: Crypto, ring: Ring, stored: string, nonce: nat)
    ensures LoadSeed(c, ring, stored) == Ok(None) <==> stored == ""
    ensures stored != "" && !("mfa:v1:" <= stored) ==> LoadSeed(c, ring, stored) == Ok(Some(stored))
    ensures "mfa:v1:" <= stored ==> forall seed ::
              LoadSeed(c, ring, stored) == Ok(Some(seed)) <==>
              FirstOpens(c, [ring.target] + ring.legacy, stored[7..], seed)
    ensures Encrypt(c, ring, nonce, "") == None && StoreSeed(c, ring, nonce, "") == None
  {
    if PREFIX <= stored {
      forall seed ensures TrySeedKeys(c, Keys(ring), stored[7..]) == Some(seed) <==>
                          FirstOpens(c, Keys(ring), stored[7..], seed) {
        TrySeedKeysMeaning(c, Keys(ring), stored[7..], seed);
      }
    }
  }

  /** Every copilot the ring recognised carries, after the rotation, the signing key's own signature. */
  lemma RecognisedIsResigned(c: Crypto, ring: Ring, a: Agent)
    requires Lawful(c) && AgentReadable(c, ring, a) && IsCoreCopilot(c, ring, a)
    ensures exists version :: HasVersion(a, version) && Genuine(c, ring, a, version)
              && Resigned(c, ring, a).extra.signature
              == SignatureText(c.sign(ring.signing, version, a.id, a.workspace, a.user))
  {
    assert Marked(a);
    AgentMeaning(c, ring, a);
    ResignedMeaning(c, ring, a);
  }

  /** Every row of a store can be read, column by column. */
  ghost predicate RowsFine(
    c: Crypto, ring: Ring, llms: seq<LlmRow>, banks: seq<BankRow>, agents: seq<Agent>, users: seq<UserRow>)
  {
    && (forall i :: 0 <= i < |llms| ==> CredentialFine(c, ring, llms[i].apiKey))
    && (forall i :: 0 <= i < |banks| ==> BankFine(c, ring, banks[i]))
    && (forall i :: 0 <= i < |agents| ==> AgentFine(c, ring, agents[i]))
    && (forall i :: 0 <= i < |users| ==> SeedFine(c, ring, users[i].seed))
  }

  ghost predicate RowsReadable(
    c: Crypto, ring: Ring, llms: seq<LlmRow>, banks: seq<BankRow>, agents: seq<Agent>, users: seq<UserRow>)
  {
    && (forall i :: 0 <= i < |llms| ==> LlmReadable(c, ring, llms[i]))
    && (forall i :: 0 <= i < |banks| ==> BankReadable(c, ring, banks[i]))
    && (forall i :: 0 <= i < |agents| ==> AgentReadable(c, ring, agents[i]))
    && (forall i :: 0 <= i < |users| ==> UserReadable(c, ring, users[i]))
  }

  lemma RowsMeaning(
    c: Crypto, ring: Ring, llms: seq<LlmRow>, banks: seq<BankRow>, agents: seq<Agent>, users: seq<UserRow>)
    ensures RowsFine(c, ring, llms, banks, agents, users) <==> RowsReadable(c, ring, llms, banks, agents, users)
  {
    hide CredentialFine, BankFine, AgentFine, SeedFine, BankReadable, AgentReadable, UserReadable;
    forall i | 0 <= i < |llms| ensures CredentialFine(c, ring, llms[i].apiKey) <==> LlmReadable(c, ring, llms[i]) {
      CredentialMeaning(c, ring, llms[i].apiKey);
    }
    forall i | 0 <= i < |banks| ensures BankFine(c, ring, banks[i]) <==> BankReadable(c, ring, banks[i]) {
      BankMeaning(c, ring, banks[i]);
    }
    forall i | 0 <= i < |agents| ensures AgentFine(c, ring, agents[i]) <==> AgentReadable(c, ring, agents[i]) {
      AgentMeaning(c, ring, agents[i]);
    }
    forall i | 0 <= i < |users| ensures SeedFine(c, ring, users[i].seed) <==> UserReadable(c, ring, users[i]) {
      SeedMeaning(c, ring, users[i]);
    }
  }

  // ---------- The script ----------

  class SecretStore {
    var llms: seq<LlmRow>
    var banks: seq<BankRow>
    var agents: seq<Agent>
    var users: seq<UserRow>

    ghost predicate AllReadable(c: Crypto, ring: Ring)
      reads this
    {
      RowsReadable(c, ring, llms, banks, agents, users)
    }

    method CollectLlms(c: Crypto, ring: Ring) returns (ok: bool, changes: map<nat, Option<string>>)
      ensures ok <==> forall i :: 0 <= i < |llms| ==> LlmReadable(c, ring, llms[i])
      ensures ok ==> forall i: nat :: i in changes <==> i < |llms| && Truthy(llms[i].apiKey)
      ensures ok ==> forall i: nat :: i in changes ==> Reencrypted(c, ring, llms[i].apiKey, changes[i])
    {
      changes := map[];
      for k := 0 to |llms|
        invariant forall i :: 0 <= i < k ==> LlmReadable(c, ring, llms[i])
        invariant forall i: nat :: i in changes <==> i < k && Truthy(llms[i].apiKey)
        invariant forall i: nat :: i in changes ==> Reencrypted(c, ring, llms[i].apiKey, changes[i])
      {
        if Truthy(llms[k].apiKey) {
          match Decrypt(c, ring, llms[k].apiKey)
          case None => return false, map[];
          case Some(plaintext) =>
            var nonce: nat :| true; // randomness
            changes := changes[k := Encrypt(c, ring, nonce, plaintext)];
        }
      }
      ok := true;
    }

    method RotateField(c: Crypto, ring: Ring, creds: Credentials, field: string)
      returns (ok: bool, rotated: Credentials)
      ensures ok <==> FieldReadable(c, ring, creds, field)
      ensures ok ==> CredentialsRotated(c, ring, creds, rotated, {field})
    {
      rotated := creds;
      ok := true;
      if FieldSet(creds, field) {
        match Decrypt(c, ring, creds[field])
        case None => ok := false;
        case Some(plaintext) =>
          var nonce: nat :| true; // randomness
          rotated := creds[field := Encrypt(c, ring, nonce, plaintext)];
      }
    }

    method RotateBank(c: Crypto, ring: Ring, row: BankRow) returns (ok: bool, after: BankRow)
      ensures ok <==> BankReadable(c, ring, row)
      ensures ok ==> BankRotated(c, ring, row, after)
    {
      var creds := Dict(row);
      var first;
      after := row;
      ok, first := RotateField(c, ring, creds, ACCESS);
      if ok {
        var second;
        ok, second := RotateField(c, ring, first, SESSION);
        if ok && (FieldSet(creds, ACCESS) || FieldSet(creds, SESSION)) {
          after := row.(credentials := Some(second));
        }
      }
    }

    method CollectBanks(c: Crypto, ring: Ring) returns (ok: bool, changes: seq<BankRow>)
      ensures ok <==> forall i :: 0 <= i < |banks| ==> BankReadable(c, ring, banks[i])
      ensures ok ==> |changes| == |banks| && forall i :: 0 <= i < |banks| ==> BankRotated(c, ring, banks[i], changes[i])
    {
      changes := [];
      for k := 0 to |banks|
        invariant |changes| == k
        invariant forall i :: 0 <= i < k ==>
                    BankReadable(c, ring, banks[i]) && BankRotated(c, ring, banks[i], changes[i])
      {
        var after;
        ok, after := RotateBank(c, ring, banks[k]);
        if !ok {
          assert !BankReadable(c, ring, banks[k]);
          return;
        }
        changes := changes + [after];
      }
      ok := true;
    }

    method CollectAgents(c: Crypto, ring: Ring) returns (ok: bool, changes: seq<Agent>)
      ensures ok <==> forall i :: 0 <= i < |agents| ==> AgentReadable(c, ring, agents[i])
      ensures ok ==> |changes| == |agents| && forall i :: 0 <= i < |agents| ==>
                       changes[i] == Resigned(c, ring, agents[i])
    {
      changes := [];
      for k := 0 to |agents|
        invariant |changes| == k
        invariant forall i :: 0 <= i < k ==>
                    AgentReadable(c, ring, agents[i]) && changes[i] == Resigned(c, ring, agents[i])
      {
        if !AgentReadable(c, ring, agents[k]) { return false, []; }
        changes := changes + [Resigned(c, ring, agents[k])];
      }
      ok := true;
    }

    /** The loaded seeds; loading already raises for an unreadable one. */
    method CollectSeeds(c: Crypto, ring: Ring) returns (ok: bool, seeds: map<nat, string>)
      ensures ok <==> forall i :: 0 <= i < |users| ==> UserReadable(c, ring, users[i])
      ensures ok ==> forall i: nat :: i in seeds <==> i < |users| && users[i].seed.Some?
      ensures ok ==> forall i: nat :: i in seeds ==> LoadSeed(c, ring, users[i].seed.value) == Ok(Some(seeds[i]))
    {
      seeds := map[];
      for k := 0 to |users|
        invariant forall i :: 0 <= i < k ==> UserReadable(c, ring, users[i])
        invariant forall i: nat :: i in seeds <==> i < k && users[i].seed.Some?
        invariant forall i: nat :: i in seeds ==> LoadSeed(c, ring, users[i].seed.value) == Ok(Some(seeds[i]))
      {
        if users[k].seed.Some? {
          if !UserReadable(c, ring, users[k]) { return false, map[]; }
          seeds := seeds[k := LoadSeed(c, ring, users[k].seed.value).value.value];
        }
      }
      ok := true;
    }

    /** Writes the pending changes to the LLM rows. */
    method ApplyLlms(changes: map<nat, Option<string>>)
      modifies this`llms
      ensures |llms| == |old(llms)|
      ensures forall i :: 0 <= i < |llms| ==>
                llms[i] == if i in changes then old(llms)[i].(apiKey := changes[i]) else old(llms)[i]
    {
      ghost var start := llms;
      for k := 0 to |llms|
        invariant |llms| == |start|
        invariant forall i :: k <= i < |llms| ==> llms[i] == start[i]
        invariant forall i :: 0 <= i < k ==>
                    llms[i] == if i in changes then start[i].(apiKey := changes[i]) else start[i]
      {
        if k in changes {
          llms := llms[k := llms[k].(apiKey := changes[k])];
        }
      }
    }

    /** Writes the seeds back: storing the column encrypts under the target key. */
    method ApplySeeds(c: Crypto, ring: Ring, seeds: map<nat, string>)
      modifies this`users
      ensures |users| == |old(users)|
      ensures forall i :: 0 <= i < |users| ==>
                if i in seeds
                then users[i].rest == old(users)[i].rest
                     && exists nonce: nat :: users[i].seed == StoreSeed(c, ring, nonce, seeds[i])
                else users[i] == old(users)[i]
    {
      ghost var start := users;
      for k := 0 to |users|
        invariant |users| == |start|
        invariant forall i :: k <= i < |users| ==> users[i] == start[i]
        invariant forall i :: 0 <= i < k ==>
                    if i in seeds
                    then users[i].rest == start[i].rest
                         && exists nonce: nat :: users[i].seed == StoreSeed(c, ring, nonce, seeds[i])
                    else users[i] == start[i]
      {
        if k in seeds {
          var nonce: nat :| true; // randomness
          users := users[k := users[k].(seed := StoreSeed(c, ring, nonce, seeds[k]))];
        }
      }
    }

    /** Raises (`ok` is false) exactly when some stored value cannot be read, and then, as in a
        dry run, no row has changed; otherwise every row is rotated. */
    method RotateData(c: Crypto, ring: Ring, apply: bool) returns (ok: bool)
      modifies this
      ensures ok <==> old(AllReadable(c, ring))
      ensures ok <==> RowsFine(c, ring, old(llms), old(banks), old(agents), old(users))
      ensures ok && apply ==> |agents| == |old(agents)| && forall i :: 0 <= i < |agents| ==>
                AgentSigned(c, ring, old(agents)[i], agents[i])
      ensures !ok || !apply ==>
                llms == old(llms) && banks == old(banks) && agents == old(agents) && users == old(users)
      ensures ok && apply ==>
                && |llms| == |old(llms)| && |banks| == |old(banks)|
                && |agents| == |old(agents)| && |users| == |old(users)|
                && (forall i :: 0 <= i < |llms| ==> LlmRotated(c, ring, old(llms)[i], llms[i]))
                && (forall i :: 0 <= i < |banks| ==> BankRotated(c, ring, old(banks)[i], banks[i]))
                && (forall i :: 0 <= i < |agents| ==> agents[i] == Resigned(c, ring, old(agents)[i]))
                && (forall i :: 0 <= i < |users| ==> UserRotated(c, ring, old(users)[i], users[i]))
    {
      hide RowsFine, AgentSigned, LlmReadable, BankReadable, AgentReadable, UserReadable;
      RowsMeaning(c, ring, llms, banks, agents, users);
      ghost var signed := agents;
      var keyChanges, bankChanges, agentChanges, seeds;
      ok, keyChanges := CollectLlms(c, ring);
      if !ok { return; }
      ok, bankChanges := CollectBanks(c, ring);
      if !ok { return; }
      ok, agentChanges := CollectAgents(c, ring);
      if !ok { return; }
      ok, seeds := CollectSeeds(c, ring);
      if !ok { return; }
      forall i | 0 <= i < |signed| ensures AgentSigned(c, ring, signed[i], Resigned(c, ring, signed[i])) {
        ResignedMeaning(c, ring, signed[i]);
      }
      if apply {
        ApplyLlms(keyChanges);
        banks := bankChanges;
        agents := agentChanges;
        ApplySeeds(c, ring, seeds);
      }
    }
  }

  // ---------- After the rotation, with the prior keys withdrawn ----------

  /** A rotated secret decrypts, under the target key alone, to its old plaintext exactly when
      that plaintext is not empty; an empty one is dropped. */
  lemma ReencryptedReadsBack(c: Crypto, ring: Ring, before: Option<string>, after: Option<string>)
    requires Lawful(c) && Reencrypted(c, ring, before, after)
    ensures Decrypt(c, Retired(ring), after) == Decrypt(c, ring, before) <==> Decrypt(c, ring, before) != Some("")
    ensures Decrypt(c, ring, before) == Some("") ==> after == None
    ensures Truthy(after) ==> Decrypt(c, Retired(ring), after).Some?
  {
    var plaintext := Decrypt(c, ring, before).value;
    var nonce: nat :| after == Encrypt(c, ring, nonce, plaintext);
    EncryptRoundTrip(c, ring, nonce, plaintext);
  }

  /** A secret sealed under any key the ring accepts is, after its rotation, read from the target
      key alone as the plaintext that was sealed. */
  lemma HeldSecretSurvives(c: Crypto, ring: Ring, before: Option<string>, after: Option<string>, plaintext: string)
    requires Lawful(c) && Holds(c, ring, before, plaintext) && Reencrypted(c, ring, before, after)
    ensures Decrypt(c, Retired(ring), after) == Some(plaintext)
    ensures Holds(c, Retired(ring), after, plaintext)
  {
    HeldIsRead(c, ring, before, plaintext);
    ReencryptedReadsBack(c, ring, before, after);
    var nonce: nat :| after == Encrypt(c, ring, nonce, plaintext);
    StoredReadsBack(c, ring, Retired(ring), nonce, plaintext);
  }

  /** What the application stored is never read as nothing, by the ring it was stored under or by
      any later one. */
  lemma StoredIsNeverEmpty(c: Crypto, prior: Ring, ring: Ring, nonce: nat, plaintext: string)
    requires Lawful(c)
    ensures Decrypt(c, ring, Encrypt(c, prior, nonce, plaintext)) != Some("")
  {
    StoredReadsBack(c, prior, ring, nonce, plaintext);
  }

  // ---------- The laws can be met ----------

  function Ones(n: nat): string {
    seq(n, _ => '1')
  }

  /** A key in front of a token, with its length before it. */
  function Header(key: Key): string {
    Ones(|key|) + ":" + key
  }

  /** Toy cryptography: a token is its key's header and the plaintext. */
  const TOY := Crypto(
    (key, salt, nonce, plaintext) => Header(key) + plaintext,
    (key, salt, token) => if Header(key) <= token then Some(token[|Header(key)|..]) else None,
    (key, version, agent, workspace, user) => key + "!")

  /** No header begins a token of another key. */
  lemma HeadersDiffer(k: Key, other: Key, p: string)
    requires Header(other) <= Header(k) + p
    ensures other == k
  {
    var token := Header(k) + p;
    assert token[|k|] == ':' && Header(other)[|other|] == ':';
    assert forall i :: 0 <= i < |k| ==> token[i] == '1';
    assert forall i :: 0 <= i < |other| ==> Header(other)[i] == '1';
    assert |other| == |k|;
    forall i | 0 <= i < |k| ensures other[i] == k[i] {
      assert Header(other)[|k| + 1 + i] == token[|k| + 1 + i];
    }
  }

  lemma ToyIsLawful()
    ensures Lawful(TOY)
  {
    forall k: Key, s: Salt, other: Key, salt: Salt, n: nat, p: string
      ensures TOY.open(k, s, TOY.seal(k, s, n, p)) == Some(p)
      ensures TOY.open(other, salt, TOY.seal(k, s, n, p)) in {None, Some(p)}
    {
      assert (Header(k) + p)[..|Header(k)|] == Header(k);
      assert (Header(k) + p)[|Header(k)|..] == p;
      if Header(other) <= Header(k) + p {
        HeadersDiffer(k, other, p);
      }
    }
  }

  /** A token of an empty plaintext is readable, and dropped by the rotation. The application's own
      encryption stores nothing for an empty plaintext, so only a token written by other means is. */
  lemma EmptyPlaintextExample()
    ensures var ring := Ring("new", ["old"], "new", ["old"]);
            var row := LlmRow(Some(TOY.seal("old", CurrentSalt, 0, "")), "");
            && Lawful(TOY) && LlmReadable(TOY, ring, row) && Decrypt(TOY, ring, row.apiKey) == Some("")
            && forall after :: LlmRotated(TOY, ring, row, after) ==> after.apiKey == None
  {
    ToyIsLawful();
    var ring := Ring("new", ["old"], "new", ["old"]);
    assert Keys(ring)[1] == "old";
    TokenIsRead(TOY, Keys(ring), "old", CurrentSalt, 0, "");
  }

  lemma LlmSurvives(c: Crypto, ring: Ring, before: LlmRow, after: LlmRow)
    requires Lawful(c) && LlmRotated(c, ring, before, after)
    ensures LlmReadable(c, Retired(ring), after)
    ensures Truthy(before.apiKey) ==>
              (Decrypt(c, Retired(ring), after.apiKey) == Decrypt(c, ring, before.apiKey) <==>
               Decrypt(c, ring, before.apiKey) != Some(""))
  {
    if Truthy(before.apiKey) {
      ReencryptedReadsBack(c, ring, before.apiKey, after.apiKey);
    }
  }

  lemma BankSurvives(c: Crypto, ring: Ring, before: BankRow, after: BankRow)
    requires Lawful(c) && BankRotated(c, ring, before, after)
    ensures BankReadable(c, Retired(ring), after)
    ensures Dict(after).Keys == Dict(before).Keys
    ensures forall f :: f in Dict(before) && f !in {ACCESS, SESSION} ==> Dict(after)[f] == Dict(before)[f]
    ensures forall f :: f in {ACCESS, SESSION} && FieldSet(Dict(before), f) ==>
              (Decrypt(c, Retired(ring), Dict(after)[f]) == Decrypt(c, ring, Dict(before)[f]) <==>
               Decrypt(c, ring, Dict(before)[f]) != Some(""))
  {
    forall f | f in {ACCESS, SESSION} && FieldSet(Dict(before), f)
      ensures Reencrypted(c, ring, Dict(before)[f], Dict(after)[f])
      ensures Truthy(Dict(after)[f]) ==> Decrypt(c, Retired(ring), Dict(after)[f]).Some?
      ensures Decrypt(c, Retired(ring), Dict(after)[f]) == Decrypt(c, ring, Dict(before)[f]) <==>
              Decrypt(c, ring, Dict(before)[f]) != Some("")
    {
      ReencryptedReadsBack(c, ring, Dict(before)[f], Dict(after)[f]);
    }
  }

  /** A re-signed copilot is recognised under the signing key alone. */
  lemma AgentSurvives(c: Crypto, ring: Ring, a: Agent)
    requires Lawful(c) && ring.signing != "" && AgentReadable(c, ring, a)
    ensures AgentReadable(c, Retired(ring), Resigned(c, ring, a))
    ensures HasMarker(a) ==> IsCoreCopilot(c, Retired(ring), Resigned(c, ring, a))
    ensures Resigned(c, ring, a).extra == a.extra.(signature := Resigned(c, ring, a).extra.signature)
  {
    if HasMarker(a) {
      var b := Resigned(c, ring, a);
      var version := StrictVersion(a.extra.version).value;
      var keys := [Retired(ring).signing] + Retired(ring).legacySigning;
      assert SignedByAny(c, keys, b, version, b.extra.signature.text) by {
        assert keys[0] == ring.signing;
      }
    }
  }

  /** A re-encrypted seed loads under the target key alone as the seed it was. */
  lemma UserSurvives(c: Crypto, ring: Ring, before: UserRow, after: UserRow)
    requires Lawful(c) && UserReadable(c, ring, before) && UserRotated(c, ring, before, after)
    ensures UserReadable(c, Retired(ring), after)
    ensures before.seed.Some? ==>
              (after.seed.Some? && LoadSeed(c, Retired(ring), after.seed.value) == LoadSeed(c, ring, before.seed.value))
  {
    if before.seed.Some? {
      var seed := LoadSeed(c, ring, before.seed.value).value.value;
      var nonce: nat :| after.seed == StoreSeed(c, ring, nonce, seed);
      SeedRoundTrip(c, ring, Retired(ring), nonce, seed);
    }
  }

  // ---------- What was sealed, row by row ----------

  /** Every plaintext sealed under a key of the ring is still there under the target key alone. */
  ghost predicate LlmKept(c: Crypto, ring: Ring, before: LlmRow, after: LlmRow) {
    forall p :: Holds(c, ring, before.apiKey, p) ==> Decrypt(c, Retired(ring), after.apiKey) == Some(p)
  }

  ghost predicate FieldKept(c: Crypto, ring: Ring, before: Credentials, after: Credentials, f: string) {
    forall p :: f in before && Holds(c, ring, before[f], p) ==>
      f in after && Decrypt(c, Retired(ring), after[f]) == Some(p)
  }

  ghost predicate BankKept(c: Crypto, ring: Ring, before: BankRow, after: BankRow) {
    FieldKept(c, ring, Dict(before), Dict(after), ACCESS) && FieldKept(c, ring, Dict(before), Dict(after), SESSION)
  }

  /** The column holds a seed sealed under one of the ring's keys, or one from before encryption. */
  ghost predicate HoldsSeed(c: Crypto, ring: Ring, stored: Option<string>, seed: string) {
    && seed != ""
    && ((!(PREFIX <= seed) && stored == Some(seed))
        || exists k: Key, nonce: nat :: k in Keys(ring) && stored == Some(PREFIX + c.seal(k, SeedSalt, nonce, seed)))
  }

  ghost predicate UserKept(c: Crypto, ring: Ring, before: UserRow, after: UserRow) {
    forall seed :: HoldsSeed(c, ring, before.seed, seed) ==>
      after.seed.Some? && LoadSeed(c, Retired(ring), after.seed.value) == Ok(Some(seed))
  }

  lemma HeldSeedLoads(c: Crypto, ring: Ring, stored: Option<string>, seed: string)
    requires Lawful(c) && HoldsSeed(c, ring, stored, seed)
    ensures stored.Some? && LoadSeed(c, ring, stored.value) == Ok(Some(seed))
  {
    if k: Key, nonce: nat :| k in Keys(ring) && stored == Some(PREFIX + c.seal(k, SeedSalt, nonce, seed)) {
      assert stored.value[|PREFIX|..] == c.seal(k, SeedSalt, nonce, seed);
      SeedTokenIsRead(c, Keys(ring), k, nonce, seed);
    }
  }

  lemma LlmKeepsSecret(c: Crypto, ring: Ring, before: LlmRow, after: LlmRow)
    requires Lawful(c) && LlmRotated(c, ring, before, after)
    ensures LlmKept(c, ring, before, after)
  {
    forall p | Holds(c, ring, before.apiKey, p) ensures Decrypt(c, Retired(ring), after.apiKey) == Some(p) {
      HeldIsRead(c, ring, before.apiKey, p);
      HeldSecretSurvives(c, ring, before.apiKey, after.apiKey, p);
    }
  }

  lemma BankKeepsSecrets(c: Crypto, ring: Ring, before: BankRow, after: BankRow)
    requires Lawful(c) && BankRotated(c, ring, before, after)
    ensures BankKept(c, ring, before, after)
  {
    forall f, p | f in {ACCESS, SESSION} && f in Dict(before) && Holds(c, ring, Dict(before)[f], p)
      ensures f in Dict(after) && Decrypt(c, Retired(ring), Dict(after)[f]) == Some(p)
    {
      HeldIsRead(c, ring, Dict(before)[f], p);
      assert FieldSet(Dict(before), f);
      HeldSecretSurvives(c, ring, Dict(before)[f], Dict(after)[f], p);
    }
  }

  lemma UserKeepsSeed(c: Crypto, ring: Ring, before: UserRow, after: UserRow)
    requires Lawful(c) && UserReadable(c, ring, before) && UserRotated(c, ring, before, after)
    ensures UserKept(c, ring, before, after)
  {
    forall seed | HoldsSeed(c, ring, before.seed, seed)
      ensures after.seed.Some? && LoadSeed(c, Retired(ring), after.seed.value) == Ok(Some(seed))
    {
      HeldSeedLoads(c, ring, before.seed, seed);
      UserSurvives(c, ring, before, after);
    }
  }

  /** Values the application wrote under keys the ring still accepts never make the rotation raise. */
  lemma HeldIsReadable(c: Crypto, ring: Ring, llm: LlmRow, creds: Credentials, f: string, user: UserRow)
    requires Lawful(c)
    ensures (exists p :: Holds(c, ring, llm.apiKey, p)) ==> LlmReadable(c, ring, llm)
    ensures f in creds && (exists p :: Holds(c, ring, creds[f], p)) ==> FieldReadable(c, ring, creds, f)
    ensures (exists seed :: HoldsSeed(c, ring, user.seed, seed)) ==> UserReadable(c, ring, user)
  {
    if p :| Holds(c, ring, llm.apiKey, p) {
      HeldIsRead(c, ring, llm.apiKey, p);
    }
    if f in creds {
      if p :| Holds(c, ring, creds[f], p) {
        HeldIsRead(c, ring, creds[f], p);
      }
    }
    if seed :| HoldsSeed(c, ring, user.seed, seed) {
      HeldSeedLoads(c, ring, user.seed, seed);
    }
  }

  /** The whole procedure: rotate for real, withdraw the prior keys, run again without applying.
      The second run cannot raise and changes nothing, and every secret sealed under a key of the
      ring is still there. */
  method RotateThenVerify(store: SecretStore, c: Crypto, ring: Ring) returns (rotated: bool, verified: bool)
    requires Lawful(c) && ring.signing != ""
    modifies store
    ensures rotated <==> old(store.AllReadable(c, ring))
    ensures rotated ==> verified && store.AllReadable(c, Retired(ring))
    ensures rotated ==>
              && |store.llms| == |old(store.llms)| && |store.banks| == |old(store.banks)|
              && |store.users| == |old(store.users)|
              && (forall i :: 0 <= i < |store.llms| ==> LlmKept(c, ring, old(store.llms)[i], store.llms[i]))
              && (forall i :: 0 <= i < |store.banks| ==> BankKept(c, ring, old(store.banks)[i], store.banks[i]))
              && (forall i :: 0 <= i < |store.users| ==> UserKept(c, ring, old(store.users)[i], store.users[i]))
    ensures !rotated ==>
              (store.llms == old(store.llms) && store.banks == old(store.banks)
               && store.agents == old(store.agents) && store.users == old(store.users))
  {
    hide LlmKept, BankKept, UserKept, LlmReadable, BankReadable, AgentReadable, Lawful;
    verified := false;
    ghost var llms, banks, agents, users := store.llms, store.banks, store.agents, store.users;
    rotated := store.RotateData(c, ring, true);
    if rotated {
      forall i | 0 <= i < |store.llms|
        ensures LlmReadable(c, Retired(ring), store.llms[i]) && LlmKept(c, ring, llms[i], store.llms[i])
      {
        LlmSurvives(c, ring, llms[i], store.llms[i]);
        LlmKeepsSecret(c, ring, llms[i], store.llms[i]);
      }
      forall i | 0 <= i < |store.banks|
        ensures BankReadable(c, Retired(ring), store.banks[i]) && BankKept(c, ring, banks[i], store.banks[i])
      {
        BankSurvives(c, ring, banks[i], store.banks[i]);
        BankKeepsSecrets(c, ring, banks[i], store.banks[i]);
      }
      forall i | 0 <= i < |store.agents| ensures AgentReadable(c, Retired(ring), store.agents[i]) {
        AgentSurvives(c, ring, agents[i]);
      }
      forall i | 0 <= i < |store.users|
        ensures UserReadable(c, Retired(ring), store.users[i]) && UserKept(c, ring, users[i], store.users[i])
      {
        UserSurvives(c, ring, users[i], store.users[i]);
        UserKeepsSeed(c, ring, users[i], store.users[i]);
      }
      verified := store.RotateData(c, Retired(ring), false);
    }
  }
}
