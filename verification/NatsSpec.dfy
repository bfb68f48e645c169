/** What the script takes from the JSON specification of the accounts, the credential manifest filled on the side. */
module NatsSpec {
  import opened Prelude
  import opened Json
  import opened NatsAccounts

  /** `str(value)` of a value that is not a string, which numbers are zero, and the stream of generated passwords. */
  datatype Env = Env(show: Json -> string, isZero: string -> bool, token: nat -> string)

  /** Ways rendering stops: the exits with a message, and an attribute error on a value of the wrong type. */
  datatype Fault =
    | AccountNotObject | AccountUnnamed | UsersMissing | UserNotObject | UserUnnamed | PermissionsNotLists | WrongType

  type Manifest = map<string, map<string, string>>

  /** What rendering changes: the manifest, and how many passwords were generated. */
  datatype Side = Side(manifest: Manifest, drawn: nat)

  function Shown(env: Env, j: Json): string {
    if j.Str? then j.s else env.show(j)
  }

  predicate Truthy(env: Env, j: Json) {
    match j
    case Null => false
    case Bool(b) => b
    case Number(text) => !env.isZero(text)
    case Str(s) => s != ""
    case Arr(items) => items != []
    case Obj(fields) => fields != map[]
  }

  function Get(fields: map<string, Json>, key: string, default: Json): Json {
    if key in fields then fields[key] else default
  }

  /** `ensure_password`: the trimmed password, or the next generated one. */
  function EnsurePassword(env: Env, value: Json, drawn: nat): (Result<string, Fault>, nat) {
    if !Truthy(env, value) then (Ok(env.token(drawn)), drawn + 1)
    else if !value.Str? then (Err(WrongType), drawn)
    else if Strip(value.s) != "" then (Ok(Strip(value.s)), drawn)
    else (Ok(env.token(drawn)), drawn + 1)
  }

  /** `render_permissions`, before printing: None when nothing is printed. */
  function TakePermissions(env: Env, j: Json): Result<Option<Permissions>, Fault> {
    if !Truthy(env, j) then Ok(None)
    else if !j.Obj? then Err(WrongType)
    else
      var publish, subscribe := Get(j.fields, "publish", Arr([])), Get(j.fields, "subscribe", Arr([]));
      if !publish.Arr? || !subscribe.Arr? then Err(PermissionsNotLists)
      else Ok(Some(Permissions(
        seq(|publish.items|, i requires 0 <= i < |publish.items| => Shown(env, publish.items[i])),
        seq(|subscribe.items|, i requires 0 <= i < |subscribe.items| => Shown(env, subscribe.items[i])))))
  }

  function Record(m: Manifest, account: string, user: string, password: string): Manifest {
    m[account := (if account in m then m[account] else map[])[user := password]]
  }

  function UserName(env: Env, fields: map<string, Json>): string {
    Strip(Shown(env, Get(fields, "username", Get(fields, "name", Str("")))))
  }

  function TakeUser(env: Env, account: string, j: Json, side: Side): (Result<User, Fault>, Side) {
    if !j.Obj? then (Err(UserNotObject), side)
    else if UserName(env, j.fields) == "" then (Err(UserUnnamed), side)
    else
      var (password, drawn) := EnsurePassword(env, Get(j.fields, "password", Null), side.drawn);
      if password.Err? then (Err(password.error), side.(drawn := drawn))
      else
        var name := UserName(env, j.fields);
        var side' := Side(Record(side.manifest, account, name, password.value), drawn);
        match TakePermissions(env, Get(j.fields, "permissions", Null))
        case Err(e) => (Err(e), side')
        case Ok(permissions) => (Ok(User(name, password.value, permissions)), side')
  }

  function TakeUsers(env: Env, account: string, js: seq<Json>, side: Side): (Result<seq<User>, Fault>, Side) {
    if js == [] then (Ok([]), side)
    else
      var (user, side1) := TakeUser(env, account, js[0], side);
      if user.Err? then (Err(user.error), side1)
      else
        var (more, side2) := TakeUsers(env, account, js[1..], side1);
        (if more.Ok? then Ok([user.value] + more.value) else Err(more.error), side2)
  }

  function AccountName(env: Env, fields: map<string, Json>): string {
    Strip(Shown(env, Get(fields, "name", Str(""))))
  }

  function TakeAccount(env: Env, j: Json, side: Side): (Result<Account, Fault>, Side) {
    if !j.Obj? then (Err(AccountNotObject), side)
    else if AccountName(env, j.fields) == "" then (Err(AccountUnnamed), side)
    else
      var users := Get(j.fields, "users", Null);
      if !users.Arr? || users.items == [] then (Err(UsersMissing), side)
      else
        var (taken, side') := TakeUsers(env, AccountName(env, j.fields), users.items, side);
        (if taken.Ok? then Ok(Account(AccountName(env, j.fields), taken.value)) else Err(taken.error), side')
  }

  function TakeAccounts(env: Env, js: seq<Json>, side: Side): (Result<seq<Account>, Fault>, Side) {
    if js == [] then (Ok([]), side)
    else
      var (account, side1) := TakeAccount(env, js[0], side);
      if account.Err? then (Err(account.error), side1)
      else
        var (more, side2) := TakeAccounts(env, js[1..], side1);
        (if more.Ok? then Ok([account.value] + more.value) else Err(more.error), side2)
  }
}
