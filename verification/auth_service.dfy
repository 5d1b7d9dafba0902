/** The token store of `src/services/auth.service.js`: `login` and `logout`
    set and remove `localStorage` keys, `isAuthenticated` and
    `getCurrentUser` read them. The server's replies and `JSON.stringify` /
    `JSON.parse` are inputs. */
module Auth {
  import opened Wrappers
  import opened Json
  import opened Http
  import opened Constants

  const LoginFailedMessage: string := "Échec de la connexion"

  /** The keys a logout clears. */
  const SessionStorageKeys: set<string> := {"token", "refresh_token", "user", "employee_id"}

  /** `data.key` for a response body that is not `null`. */
  function Read(data: Json, key: string): (v: Option<Json>)
    requires !data.JNull?
    ensures v.Some? <==> data.JObj? && key in data.fields
  {
    Property(data, key).value
  }

  /** The service over the browser's `localStorage`, with the requests it
      issued. */
  class AuthService {
    var storage: map<string, string>
    var requests: seq<Request>

    constructor(storage: map<string, string>)
      ensures this.storage == storage && requests == []
    {
      this.storage := storage;
      requests := [];
    }

    /** `localStorage.getItem(key)`: the stored text, or `null`. */
    function GetItem(key: string): Json
      reads this
    {
      if key in storage then JStr(storage[key]) else JNull
    }

    /** `isAuthenticated()`, the truthiness of the stored token: a token is
        stored and it is not empty. */
    function IsAuthenticated(): (b: bool)
      reads this
      ensures b <==> "token" in storage && storage["token"] != ""
    {
      Truthy(Some(GetItem("token")))
    }

    /** `getCurrentUser()`: `null` (`Ok(None)`) when no user, or an empty
        one, is stored; otherwise the stored text parsed, which throws when
        it is not JSON. */
    function GetCurrentUser(parse: string -> Result<Json, string>): (r: Result<Option<Json>, string>)
      reads this
      ensures "user" !in storage || storage["user"] == "" ==> r == Ok(None)
      ensures "user" in storage && storage["user"] != "" ==>
        (r.Ok? <==> parse(storage["user"]).Ok?) &&
        (r.Ok? ==> r.value == Some(parse(storage["user"]).value))
    {
      if "user" !in storage || storage["user"] == "" then Ok(None)
      else
        match parse(storage["user"])
        case Ok(v) => Ok(Some(v))
        case Err(e) => Err(e)
    }

    /** `login(username, password)`: posts the credentials. A response whose
        `access` is truthy stores the access token, the refresh token and
        the serialised user (the text `undefined` stands in for a missing
        one), and the employee id when it is truthy; any other response
        leaves the store as it was. A rejection, or a `null` body, throws
        the server's `error` field or the fixed failure message. */
    method Login(username: string, password: string, reply: Reply, stringify: Json -> string)
      returns (r: Result<Json, string>)
      modifies this
      ensures requests == old(requests) +
        [Post(ApiBaseUrl + LoginPath, JObj(map["username" := JStr(username), "password" := JStr(password)]))]
      ensures reply.Rejected? ==> r == Err(ErrorText(reply.body, "error", LoginFailedMessage)) && storage == old(storage)
      ensures reply.Resolved? && reply.data.JNull? ==> r == Err(LoginFailedMessage) && storage == old(storage)
      ensures reply.Resolved? && !reply.data.JNull? ==> r == Ok(reply.data)
      ensures reply.Resolved? && !reply.data.JNull? && !Truthy(Read(reply.data, "access")) ==>
        storage == old(storage)
      ensures reply.Resolved? && !reply.data.JNull? && Truthy(Read(reply.data, "access")) ==>
        IsAuthenticated() &&
        storage["token"] == JsString(Read(reply.data, "access")) &&
        "refresh_token" in storage && storage["refresh_token"] == JsString(Read(reply.data, "refresh")) &&
        "user" in storage &&
        storage["user"] == (if Read(reply.data, "user").Some? then stringify(Read(reply.data, "user").value) else "undefined") &&
        (Truthy(Read(reply.data, "employee_id")) ==>
          "employee_id" in storage && storage["employee_id"] == JsString(Read(reply.data, "employee_id"))) &&
        (!Truthy(Read(reply.data, "employee_id")) ==>
          ("employee_id" in storage <==> "employee_id" in old(storage)) &&
          ("employee_id" in storage ==> storage["employee_id"] == old(storage)["employee_id"])) &&
        (forall k :: k in old(storage) && k !in SessionStorageKeys ==> k in storage && storage[k] == old(storage)[k]) &&
        storage.Keys == old(storage).Keys + {"token", "refresh_token", "user"} +
          (if Truthy(Read(reply.data, "employee_id")) then {"employee_id"} else {})
    {
      requests := requests + [Post(ApiBaseUrl + LoginPath, JObj(map["username" := JStr(username), "password" := JStr(password)]))];
      match reply {
        case Rejected(_, body) =>
          return Err(ErrorText(body, "error", LoginFailedMessage));
        case Resolved(data) =>
          if data.JNull? {
            // Reading `access` of a `null` body throws a TypeError, which
            // carries no server response.
            return Err(LoginFailedMessage);
          }
          var access := Read(data, "access");
          if Truthy(access) {
            TruthyTextNonEmpty(access);
            storage := storage["token" := JsString(access)];
            storage := storage["refresh_token" := JsString(Read(data, "refresh"))];
            var user := Read(data, "user");
            storage := storage["user" := if user.Some? then stringify(user.value) else "undefined"];
            var employeeId := Read(data, "employee_id");
            if Truthy(employeeId) {
              storage := storage["employee_id" := JsString(employeeId)];
            }
          }
          return Ok(data);
      }
    }

    /** `logout()`: building the request's headers reads `headers` of the
        configuration object `src/config/constants.js` does not export, so
        a `TypeError` is thrown before anything is posted; it is caught and
        logged, and the session keys are removed whatever happened. */
    method Logout()
      modifies this
      ensures storage == old(storage) - SessionStorageKeys
      ensures requests == old(requests)
      ensures !IsAuthenticated() && "user" !in storage
    {
      storage := storage - {"token"};
      storage := storage - {"refresh_token"};
      storage := storage - {"user"};
      storage := storage - {"employee_id"};
    }
  }
}
