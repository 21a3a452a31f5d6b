/**
 * The set-user-password plugin (`SetUserPasswordPlugin`), as its unit tests
 * pin it down: it picks a password from one of three sources, sets it on the
 * local account, and publishes it, encrypted with the user's SSH public key,
 * to a metadata service that can take it and does not hold one already.
 *
 * The metadata service, the OS utilities and the crypto primitives are
 * collaborators given by their answers; every call the plugin makes to them,
 * and every log line it writes, is recorded in a trace of `Call`s.
 */
module SetUserPasswordPlugin {
  import opened Wrappers
  import opened Utf8

  /** PLUGIN_EXECUTION_DONE: the plugin need not run again. */
  const PluginExecutionDone: nat := 1

  /** The keys of the shared data that this plugin reads. */
  datatype SharedKey = SharedUsername | SharedPassword

  type SharedData = map<SharedKey, string>

  /** The options `inject_user_password` and `username`. */
  datatype Config = Config(injectUserPassword: bool, username: string)

  /** The metadata service, by its answers. */
  datatype Service = Service(
    adminPassword: string,
    publicKeys: seq<string>,
    isPasswordSet: bool,
    canPostPassword: bool,
    postPassword: string -> bool)

  /** The OS utilities, by their answers; `generateRandomPassword` fixes the random choice. */
  datatype OsUtils = OsUtils(
    userExists: string -> bool,
    maximumPasswordLength: nat,
    generateRandomPassword: nat -> string)

  datatype CryptoError = CryptoError(detail: string)

  /**
   * `CryptManager.load_ssh_rsa_public_key`, the loaded key's `public_encrypt`
   * and `base64.b64encode`, uninterpreted; K is the loaded key.
   */
  datatype Crypto<!K> = Crypto(
    loadSshRsaPublicKey: string -> Result<K, CryptoError>,
    publicEncrypt: (K, seq<byte>) -> Result<seq<byte>, CryptoError>,
    b64encode: seq<byte> -> string)

  /** A call to a collaborator, or a log line. */
  datatype Call =
    | GetAdminPassword
    | GetMaximumPasswordLength
    | GenerateRandomPassword(length: nat)
    | UserExists(user: string)
    | SetUserPassword(user: string, password: string)
    | GetPublicKeys
    | LoadSshRsaPublicKey(key: string)
    | PublicEncrypt(plaintext: seq<byte>)
    | ReleaseKey                               // leaving the `with` block of the loaded key
    | B64Encode(data: seq<byte>)
    | PostPassword(encrypted: string)
    | Log(message: string)

  /** A value together with the calls that produced it, in order. */
  datatype Traced<T> = Traced(value: T, calls: seq<Call>)

  const AlreadySetMessage := "User's password already set in the instance metadata and it cannot be updated in the instance metadata"
  const NoPublicKeyMessage := "No SSH public key available for password encryption"
  const NotSupportedMessage := "Cannot set the password in the metadata as it is not supported by this service"

  function UpdatedMessage(user: string): string
  {
    "Password succesfully updated for user " + user
  }

  /** The password is posted at most once in `calls`. */
  ghost predicate AtMostOnePost(calls: seq<Call>)
  {
    forall i, j :: 0 <= i < j < |calls| && calls[i].PostPassword? ==> !calls[j].PostPassword?
  }

  /** The bytes of `pw` that `public_encrypt` receives. */
  function PasswordBytes(pw: string): (r: seq<byte>)
    ensures Decode(r) == Some(pw)
  {
    DecodeEncode(pw);
    Encode(pw)
  }

  /**
   * `_encrypt_password`: load the key, encrypt the UTF-8 bytes of the password
   * with it, release it, and return the base64 form of the ciphertext. A key
   * that does not load or an encryption that fails is an error for the caller.
   */
  function EncryptPassword<K>(crypto: Crypto<K>, sshPubKey: string, password: string): (r: Traced<Result<string, CryptoError>>)
    ensures r.calls != [] && r.calls[0] == LoadSshRsaPublicKey(sshPubKey)
    ensures r.value.Success? <==>
              crypto.loadSshRsaPublicKey(sshPubKey).Success? &&
              crypto.publicEncrypt(crypto.loadSshRsaPublicKey(sshPubKey).value, PasswordBytes(password)).Success?
    ensures r.value.Success? ==>
              r.value.value == crypto.b64encode(crypto.publicEncrypt(crypto.loadSshRsaPublicKey(sshPubKey).value,
                                                                     PasswordBytes(password)).value)
    ensures forall c :: c in r.calls && c.PublicEncrypt? ==> Decode(c.plaintext) == Some(password)
    ensures ReleaseKey in r.calls <==> crypto.loadSshRsaPublicKey(sshPubKey).Success?
  {
    var plaintext := PasswordBytes(password);
    match crypto.loadSshRsaPublicKey(sshPubKey)
    case Failure(e) =>
      Traced(Failure(e), [LoadSshRsaPublicKey(sshPubKey)])
    case Success(rsa) =>
      match crypto.publicEncrypt(rsa, plaintext)
      case Failure(e) =>
        Traced(Failure(e), [LoadSshRsaPublicKey(sshPubKey), PublicEncrypt(plaintext), ReleaseKey])
      case Success(ciphertext) =>
        Traced(Success(crypto.b64encode(ciphertext)),
               [LoadSshRsaPublicKey(sshPubKey), PublicEncrypt(plaintext), ReleaseKey, B64Encode(ciphertext)])
  }

  /** The encryption makes no other call and never posts. */
  lemma EncryptPasswordCalls<K>(crypto: Crypto<K>, sshPubKey: string, password: string)
    ensures var r := EncryptPassword(crypto, sshPubKey, password);
            forall c :: c in r.calls ==> c.LoadSshRsaPublicKey? || c.PublicEncrypt? || c.ReleaseKey? || c.B64Encode?
  {
  }

  /** `_get_ssh_public_key`: the first key the service returns, if it returns any. */
  function GetSshPublicKey(service: Service): (r: Traced<Option<string>>)
    ensures r.calls == [GetPublicKeys]
    ensures r.value.None? <==> service.publicKeys == []
    ensures r.value.Some? ==> r.value.value == service.publicKeys[0] && r.value.value in service.publicKeys
  {
    Traced(if service.publicKeys == [] then None else Some(service.publicKeys[0]), [GetPublicKeys])
  }

  /**
   * `_get_password`, by precedence: the service's admin password when
   * injection is configured; else a password an earlier plugin left in the
   * shared data; else a random one of the maximum length.
   */
  function GetPassword(config: Config, service: Service, osutils: OsUtils, shared: SharedData): (r: Traced<string>)
    ensures config.injectUserPassword ==> r == Traced(service.adminPassword, [GetAdminPassword])
    ensures !config.injectUserPassword && SharedPassword in shared ==> r == Traced(shared[SharedPassword], [])
    ensures !config.injectUserPassword && SharedPassword !in shared ==>
              r.calls == [GetMaximumPasswordLength, GenerateRandomPassword(osutils.maximumPasswordLength)] &&
              r.value == osutils.generateRandomPassword(osutils.maximumPasswordLength)
  {
    if config.injectUserPassword then
      Traced(service.adminPassword, [GetAdminPassword])
    else if SharedPassword in shared then
      Traced(shared[SharedPassword], [])
    else
      var length := osutils.maximumPasswordLength;
      Traced(osutils.generateRandomPassword(length), [GetMaximumPasswordLength, GenerateRandomPassword(length)])
  }

  /**
   * Exactly one source supplies the password: the service is asked only
   * under injection, the generator only when nothing was injected or stored,
   * each at most once, and the generator for exactly the maximum length.
   */
  lemma PasswordFromOneSource(config: Config, service: Service, osutils: OsUtils, shared: SharedData)
    ensures var r := GetPassword(config, service, osutils, shared);
            && (GetAdminPassword in r.calls <==> config.injectUserPassword)
            && ((exists n :: GenerateRandomPassword(n) in r.calls) <==> !config.injectUserPassword && SharedPassword !in shared)
            && (forall n :: GenerateRandomPassword(n) in r.calls ==> n == osutils.maximumPasswordLength)
            && |r.calls| <= 2
            && !(GetAdminPassword in r.calls && exists n :: GenerateRandomPassword(n) in r.calls)
            && (r.calls == [] <==> !config.injectUserPassword && SharedPassword in shared)
  {
  }

  /** `shared_data.get(SHARED_DATA_USERNAME, CONF.username)`. */
  function UserName(config: Config, shared: SharedData): (r: string)
    ensures SharedUsername in shared ==> r == shared[SharedUsername]
    ensures SharedUsername !in shared ==> r == config.username
  {
    if SharedUsername in shared then shared[SharedUsername] else config.username
  }

  /**
   * `_set_password`: the password `_get_password` picks, set on the account
   * with one `set_user_password` call that comes after the source's calls.
   */
  method SetPassword(config: Config, service: Service, osutils: OsUtils, user: string, shared: SharedData)
    returns (password: string, calls: seq<Call>)
    ensures password == GetPassword(config, service, osutils, shared).value
    ensures calls == GetPassword(config, service, osutils, shared).calls + [SetUserPassword(user, password)]
    ensures forall i :: 0 <= i < |calls| && calls[i].SetUserPassword? ==> i == |calls| - 1
  {
    var chosen := GetPassword(config, service, osutils, shared);
    password := chosen.value;
    calls := chosen.calls + [SetUserPassword(user, password)];
  }

  /**
   * `_set_metadata_password`, as a specification: nothing is posted when the
   * service already holds a password or offers no SSH key (both succeed);
   * otherwise the encrypted password is posted and the service's answer
   * returned, unless encryption fails, which is raised.
   */
  function MetadataPublication<K>(password: string, service: Service, crypto: Crypto<K>): (r: Traced<Result<bool, CryptoError>>)
    ensures service.isPasswordSet ==> r == Traced(Success(true), [Log(AlreadySetMessage)])
    ensures !service.isPasswordSet && service.publicKeys == [] ==>
              r == Traced(Success(true), [GetPublicKeys, Log(NoPublicKeyMessage)])
    ensures !service.isPasswordSet && service.publicKeys != [] ==>
              var encrypted := EncryptPassword(crypto, service.publicKeys[0], password);
              && r.calls == [GetPublicKeys] + encrypted.calls
                            + (if encrypted.value.Success? then [PostPassword(encrypted.value.value)] else [])
              && r.value == (if encrypted.value.Success? then Success(service.postPassword(encrypted.value.value))
                             else Failure(encrypted.value.error))
              && forall c :: c in r.calls ==> !c.Log?
  {
    if service.isPasswordSet then
      Traced(Success(true), [Log(AlreadySetMessage)])
    else
      var key := GetSshPublicKey(service);
      match key.value
      case None =>
        Traced(Success(true), key.calls + [Log(NoPublicKeyMessage)])
      case Some(sshPubKey) =>
        var encrypted := EncryptPassword(crypto, sshPubKey, password);
        EncryptPasswordCalls(crypto, sshPubKey, password);
        match encrypted.value
        case Failure(e) =>
          Traced(Failure(e), key.calls + encrypted.calls)
        case Success(enc) =>
          Traced(Success(service.postPassword(enc)), key.calls + encrypted.calls + [PostPassword(enc)])
  }

  /**
   * The publication guard: the password is posted at most once, only when the
   * service holds none and has a key, and what is posted is the base64 form
   * of the first key's encryption of the password's UTF-8 bytes; the result
   * is then the service's answer.
   */
  lemma PublishAtMostOnce<K>(password: string, service: Service, crypto: Crypto<K>)
    ensures var r := MetadataPublication(password, service, crypto);
            && AtMostOnePost(r.calls)
            && forall i :: 0 <= i < |r.calls| && r.calls[i].PostPassword? ==>
                 && i == |r.calls| - 1
                 && !service.isPasswordSet && service.publicKeys != []
                 && EncryptPassword(crypto, service.publicKeys[0], password).value == Success(r.calls[i].encrypted)
                 && r.value == Success(service.postPassword(r.calls[i].encrypted))
  {
  }

  /** `post_password` is reached exactly when the service holds no password, offers a key, and encryption succeeds. */
  lemma PostedUnlessGuarded<K>(password: string, service: Service, crypto: Crypto<K>)
    ensures var r := MetadataPublication(password, service, crypto);
            (exists c :: c in r.calls && c.PostPassword?) <==>
              !service.isPasswordSet && service.publicKeys != [] &&
              EncryptPassword(crypto, service.publicKeys[0], password).value.Success?
  {
    var r := MetadataPublication(password, service, crypto);
    PublishAtMostOnce(password, service, crypto);
    if !service.isPasswordSet && service.publicKeys != [] {
      var encrypted := EncryptPassword(crypto, service.publicKeys[0], password);
      if encrypted.value.Success? {
        assert r.calls[|r.calls| - 1] == PostPassword(encrypted.value.value);
      } else {
        EncryptPasswordCalls(crypto, service.publicKeys[0], password);
        forall c | c in r.calls ensures !c.PostPassword? {
          assert c == GetPublicKeys || c in encrypted.calls;
        }
      }
    }
  }

  /** `_set_metadata_password`. */
  method SetMetadataPassword<K>(password: string, service: Service, crypto: Crypto<K>)
    returns (r: Result<bool, CryptoError>, calls: seq<Call>)
    ensures Traced(r, calls) == MetadataPublication(password, service, crypto)
    ensures AtMostOnePost(calls)
  {
    if service.isPasswordSet {
      return Success(true), [Log(AlreadySetMessage)];
    }
    var key := GetSshPublicKey(service);
    calls := key.calls;
    if key.value.None? {
      return Success(true), calls + [Log(NoPublicKeyMessage)];
    }
    var encrypted := EncryptPassword(crypto, key.value.value, password);
    calls := calls + encrypted.calls;
    if encrypted.value.Failure? {
      return Failure(encrypted.value.error), calls;
    }
    var enc := encrypted.value.value;
    calls := calls + [PostPassword(enc)];
    r := Success(service.postPassword(enc));
    PublishAtMostOnce(password, service, crypto);
  }

  /**
   * `execute`, for a user that exists: set the password, log the update, and
   * publish it unless the service cannot take posted passwords, in which case
   * that is logged instead. It finishes with (PLUGIN_EXECUTION_DONE, False)
   * unless encryption raised.
   */
  method Execute<K>(config: Config, service: Service, osutils: OsUtils, crypto: Crypto<K>, shared: SharedData)
    returns (r: Result<(nat, bool), CryptoError>, calls: seq<Call>)
    requires osutils.userExists(UserName(config, shared))
    ensures var user := UserName(config, shared);
            var chosen := GetPassword(config, service, osutils, shared);
            var tail := if service.canPostPassword then MetadataPublication(chosen.value, service, crypto).calls
                        else [Log(NotSupportedMessage)];
            calls == [UserExists(user)] + chosen.calls + [SetUserPassword(user, chosen.value), Log(UpdatedMessage(user))] + tail
    ensures r.Success? ==> r.value == (PluginExecutionDone, false)
    ensures r.Failure? <==>
              service.canPostPassword && !service.isPasswordSet && service.publicKeys != [] &&
              EncryptPassword(crypto, service.publicKeys[0], GetPassword(config, service, osutils, shared).value).value.Failure?
    ensures AtMostOnePost(calls)
    ensures !service.canPostPassword || service.isPasswordSet ==> forall c :: c in calls ==> !c.PostPassword?
  {
    var user := UserName(config, shared);
    calls := [UserExists(user)];
    var password, setCalls := SetPassword(config, service, osutils, user, shared);
    calls := calls + setCalls + [Log(UpdatedMessage(user))];
    r := Success((PluginExecutionDone, false));
    var tail: seq<Call>;
    if !service.canPostPassword {
      tail := [Log(NotSupportedMessage)];
    } else {
      var published;
      published, tail := SetMetadataPassword(password, service, crypto);
      if published.Failure? {
        r := Failure(published.error);
      }
    }
    ExecuteAtMostOnePost(calls, tail);
    calls := calls + tail;
  }

  /** Posting nowhere before the publication step keeps the whole trace to one post. */
  lemma ExecuteAtMostOnePost(head: seq<Call>, tail: seq<Call>)
    requires forall c :: c in head ==> !c.PostPassword?
    requires AtMostOnePost(tail)
    ensures AtMostOnePost(head + tail)
  {
  }
}
