/** Storing and loading the auth token: the `Type` header picks the storage manager,
    the `Authorization` header carries the token, and every failure becomes a
    "failed" message. The storage managers are parameters: what storing or loading
    did, or the exception it raised. */
module AuthTokenService {
  import opened Wrappers
  import opened Strings

  datatype Manager = CliManager | ExtensionManager

  /** The two kinds of exception the service tells apart; `text` is `str(error)`. */
  datatype Failure = ValueError(text: string) | OtherError(text: string)

  /** What a call into a storage manager gave. */
  datatype Attempt<T> = Done(value: T) | Threw(failure: Failure)

  const Success := "success"
  const Failed := "failed"
  const IndexErrorText := "list index out of range"

  type Headers = map<string, string>
  type Reply = map<string, string>

  /** `get_auth_token_storage_manager`. */
  function StorageManager(kind: string): (r: Attempt<Manager>)
    ensures r == Done(CliManager) <==> kind == "cli"
    ensures r == Done(ExtensionManager) <==> kind == "extension"
    ensures r.Threw? <==> kind != "cli" && kind != "extension"
    ensures r.Threw? ==> r.failure == ValueError("Invalid storage manager type")
  {
    if kind == "cli" then Done(CliManager)
    else if kind == "extension" then Done(ExtensionManager)
    else Threw(ValueError("Invalid storage manager type"))
  }

  /** A header's value, with a missing header and an empty one both falsy. */
  function Present(h: Headers, name: string): (r: Option<string>)
    ensures r.Some? <==> name in h && h[name] != ""
    ensures r.Some? ==> r.value == h[name]
  {
    if name in h && h[name] != "" then Some(h[name]) else None
  }

  /** The reply for a failure: a ValueError gets `prefix`, anything else `otherPrefix`. */
  function FailedReply(f: Failure, prefix: string, otherPrefix: string): (r: Reply)
    ensures r.Keys == {"message", "error"} && r["message"] == Failed
    ensures r["error"] == (if f.ValueError? then prefix else otherPrefix) + f.text
  {
    map["message" := Failed, "error" := (if f.ValueError? then prefix else otherPrefix) + f.text]
  }

  const StorePrefix := "Failed to store auth token: "
  const StoreOtherPrefix := "Failed to store auth token due: "
  const LoadPrefix := "Failed to load auth token: "

  /** The steps of `store_token` before the reply is built: the call made to a storage
      manager, or the exception raised on the way. */
  function StoreCall(h: Headers): (r: Attempt<(Manager, string)>)
    ensures Present(h, "Type").None? ==> r == Threw(ValueError("Type header not found"))
    ensures Present(h, "Type").Some? && Present(h, "Authorization").None? ==>
            r == Threw(ValueError("Authorization header not found"))
  {
    match Present(h, "Type")
    case None => Threw(ValueError("Type header not found"))
    case Some(kind) =>
      match Present(h, "Authorization")
      case None => Threw(ValueError("Authorization header not found"))
      case Some(authorization) =>
        var fields := Split(authorization, ' ');
        if |fields| < 2 then Threw(OtherError(IndexErrorText))
        else
          match StorageManager(kind)
          case Threw(f) => Threw(f)
          case Done(m) => Done((m, fields[1]))
  }

  /** `store_token`: `store` is the chosen manager's `store_auth_token`. */
  function StoreToken(h: Headers, store: (Manager, string) -> Option<Failure>): (r: Reply)
    ensures "message" in r
    ensures r["message"] == Success <==> StoreCall(h).Done? && store(StoreCall(h).value.0, StoreCall(h).value.1).None?
    ensures r["message"] == Success ==> r == map["message" := Success]
    ensures StoreCall(h).Threw? ==> r == FailedReply(StoreCall(h).failure, StorePrefix, StoreOtherPrefix)
  {
    match StoreCall(h)
    case Threw(f) => FailedReply(f, StorePrefix, StoreOtherPrefix)
    case Done(call) =>
      match store(call.0, call.1)
      case Some(f) => FailedReply(f, StorePrefix, StoreOtherPrefix)
      case None => map["message" := Success]
  }

  /** With both headers present, the manager and the token are the Type value's manager
      and the second space-separated field of the Authorization value; without a
      space the lookup of that field fails. */
  lemma StoredToken(h: Headers, kind: string, authorization: string)
    requires Present(h, "Type") == Some(kind) && Present(h, "Authorization") == Some(authorization)
    ensures ' ' !in authorization ==> StoreCall(h) == Threw(OtherError(IndexErrorText))
    ensures ' ' in authorization && StorageManager(kind).Done? ==>
            StoreCall(h) == Done((StorageManager(kind).value, Split(authorization, ' ')[1]))
    ensures ' ' in authorization && StorageManager(kind).Threw? ==>
            StoreCall(h) == Threw(ValueError("Invalid storage manager type"))
  {
  }

  /** A missing Authorization header is reported even when the Type value names no
      manager: the header check comes first. */
  lemma AuthorizationCheckedFirst(h: Headers)
    requires "Type" in h && h["Type"] == "unknown" && "Authorization" !in h
    ensures StoreToken(h, (m, t) => None) ==
            map["message" := Failed, "error" := StorePrefix + "Authorization header not found"]
  {
    assert Present(h, "Type") == Some("unknown");
  }

  /** `load_token`: `load` is the chosen manager's `load_auth_token`. */
  function LoadToken(h: Headers, load: Manager -> Attempt<string>): (r: Reply)
    ensures "message" in r
    ensures r["message"] == Success <==>
            Present(h, "Type").Some? && StorageManager(Present(h, "Type").value).Done? &&
            load(StorageManager(Present(h, "Type").value).value).Done?
    ensures r["message"] == Success ==>
            r == map["message" := Success, "auth_token" := load(StorageManager(Present(h, "Type").value).value).value]
    ensures Present(h, "Type").None? ==> r == FailedReply(ValueError("Type header not found"), LoadPrefix, LoadPrefix)
  {
    match Present(h, "Type")
    case None => FailedReply(ValueError("Type header not found"), LoadPrefix, LoadPrefix)
    case Some(kind) =>
      match StorageManager(kind)
      case Threw(f) => FailedReply(f, LoadPrefix, LoadPrefix)
      case Done(m) =>
        match load(m)
        case Threw(f) => FailedReply(f, LoadPrefix, LoadPrefix)
        case Done(token) => map["message" := Success, "auth_token" := token]
  }

  /** Storing and loading with the same Type header reach the same manager, so a
      manager that keeps what it is given hands the stored token back. */
  lemma StoreThenLoad(h: Headers, token: string)
    requires StoreCall(h).Done? && StoreCall(h).value.1 == token
    ensures var m := StoreCall(h).value.0;
            LoadToken(h, (n: Manager) => if n == m then Done(token) else Threw(OtherError("no token"))) ==
            map["message" := Success, "auth_token" := token]
  {
  }
}
