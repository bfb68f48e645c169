/**
 What the accounts block says, in terms of the fields of the JSON specification: which specifications are rendered,
 and what a reader of the rendered text finds.
 */
module NatsMeaning {
  import opened Prelude
  import opened Json
  import NatsText
  import opened NatsAccounts
  import opened NatsSpec

  // ------------------------------------------------------------------------------------------
  // Fields.

  /** The text is what `str` makes of the value. */
  predicate Shows(env: Env, v: Json, text: string) {
    if v.Str? then text == v.s else text == env.show(v)
  }

  /** The text is that without the spaces at its ends. */
  ghost predicate ShowsTrimmed(env: Env, v: Json, text: string) {
    exists whole :: Shows(env, v, whole) && IsTrimOf(text, whole)
  }

  /** A value that Python takes for false. */
  predicate Falsy(env: Env, v: Json) {
    || v == Null || v == Bool(false) || v == Str("") || v == Arr([]) || v == Obj(map[])
    || (v.Number? && env.isZero(v.text))
  }

  /** The field is missing or holds a value that Python takes for false. */
  predicate Blank(env: Env, fields: map<string, Json>, key: string) {
    key !in fields || Falsy(env, fields[key])
  }

  // ------------------------------------------------------------------------------------------
  // What one entry says.

  /** The name: `username` where present, else `name` where present, else nothing. */
  ghost predicate SaysUserName(env: Env, fields: map<string, Json>, name: string) {
    if "username" in fields then ShowsTrimmed(env, fields["username"], name)
    else if "name" in fields then ShowsTrimmed(env, fields["name"], name)
    else name == ""
  }

  /** The specification gives a password: a string with a character that is no space. */
  predicate GivesPassword(j: Json) {
    && j.Obj? && "password" in j.fields && j.fields["password"].Str?
    && exists k | 0 <= k < |j.fields["password"].s| :: !IsSpace(j.fields["password"].s[k])
  }

  /** The password given, trimmed, or else the generated one. */
  predicate SaysPassword(env: Env, j: Json, password: string, generated: nat) {
    if GivesPassword(j) then IsTrimOf(password, j.fields["password"].s) else password == env.token(generated)
  }

  /** The subjects listed under the key, item for item; a missing key lists none. */
  predicate SaysSubjects(env: Env, fields: map<string, Json>, key: string, subjects: seq<string>) {
    if key !in fields then subjects == []
    else
      && fields[key].Arr? && |subjects| == |fields[key].items|
      && forall k | 0 <= k < |subjects| :: Shows(env, fields[key].items[k], subjects[k])
  }

  /** Permissions as listed under their own names; none if there are none. */
  predicate SaysPermissions(env: Env, fields: map<string, Json>, permissions: Option<Permissions>) {
    if Blank(env, fields, "permissions") then permissions == None
    else
      && fields["permissions"].Obj? && permissions.Some?
      && SaysSubjects(env, fields["permissions"].fields, "publish", permissions.value.publish)
      && SaysSubjects(env, fields["permissions"].fields, "subscribe", permissions.value.subscribe)
  }

  ghost predicate SaysUser(env: Env, j: Json, user: User, generated: nat) {
    && j.Obj? && user.name != "" && SaysUserName(env, j.fields, user.name)
    && SaysPassword(env, j, user.password, generated)
    && SaysPermissions(env, j.fields, user.permissions)
  }

  // ------------------------------------------------------------------------------------------
  // What the whole block says.

  function UsersOf(j: Json): seq<Json> {
    if j.Obj? && "users" in j.fields && j.fields["users"].Arr? then j.fields["users"].items else []
  }

  /** One generated password for a user the specification gives none. */
  function UserCost(j: Json): nat {
    if GivesPassword(j) then 0 else 1
  }

  function UsersCost(js: seq<Json>): nat {
    if js == [] then 0 else UserCost(js[0]) + UsersCost(js[1..])
  }

  function AccountsCost(js: seq<Json>): nat {
    if js == [] then 0 else UsersCost(UsersOf(js[0])) + AccountsCost(js[1..])
  }

  /** Every user in order; generated passwords are drawn from number `start` on, in the order of the users. */
  ghost predicate SaysUsers(env: Env, js: seq<Json>, users: seq<User>, start: nat)
    decreases |js|
  {
    if js == [] then users == []
    else
      && users != [] && SaysUser(env, js[0], users[0], start)
      && SaysUsers(env, js[1..], users[1..], start + UserCost(js[0]))
  }

  /** A name, and every user. */
  ghost predicate SaysAccount(env: Env, j: Json, account: Account, start: nat) {
    && j.Obj? && account.name != "" && "name" in j.fields && ShowsTrimmed(env, j.fields["name"], account.name)
    && UsersOf(j) != [] && SaysUsers(env, UsersOf(j), account.users, start)
  }

  /** Every account in order, going on counting from one to the next. */
  ghost predicate SaysAccounts(env: Env, js: seq<Json>, accounts: seq<Account>, start: nat)
    decreases |js|
  {
    if js == [] then accounts == []
    else
      && accounts != [] && SaysAccount(env, js[0], accounts[0], start)
      && SaysAccounts(env, js[1..], accounts[1..], start + UsersCost(UsersOf(js[0])))
  }

  // ------------------------------------------------------------------------------------------
  // Which specifications are rendered.

  /** A list or nothing. */
  predicate ListOrMissing(fields: map<string, Json>, key: string) {
    key !in fields || fields[key].Arr?
  }

  ghost predicate RendersUser(env: Env, j: Json) {
    && j.Obj? && (exists name :: name != "" && SaysUserName(env, j.fields, name))
    && (Blank(env, j.fields, "password") || j.fields["password"].Str?)
    && (Blank(env, j.fields, "permissions") ||
        (j.fields["permissions"].Obj? && ListOrMissing(j.fields["permissions"].fields, "publish")
         && ListOrMissing(j.fields["permissions"].fields, "subscribe")))
  }

  ghost predicate RendersAccount(env: Env, j: Json) {
    && j.Obj? && "name" in j.fields && (exists name :: name != "" && ShowsTrimmed(env, j.fields["name"], name))
    && UsersOf(j) != [] && RendersUsers(env, UsersOf(j))
  }

  // ------------------------------------------------------------------------------------------
  // One user.

  lemma TextShows(env: Env, v: Json, text: string)
    ensures Shows(env, v, text) <==> text == Shown(env, v)
  {
  }

  lemma TrimmedIff(env: Env, v: Json, text: string)
    ensures ShowsTrimmed(env, v, text) <==> text == Strip(Shown(env, v))
  {
    StripIff(text, Shown(env, v));
    TextShows(env, v, Shown(env, v));
  }

  lemma FalsyIff(env: Env, v: Json)
    ensures Falsy(env, v) <==> !Truthy(env, v)
  {
  }

  lemma UserNameIff(env: Env, fields: map<string, Json>, name: string)
    ensures SaysUserName(env, fields, name) <==> name == UserName(env, fields)
  {
    if "username" in fields {
      TrimmedIff(env, fields["username"], name);
    } else if "name" in fields {
      TrimmedIff(env, fields["name"], name);
    } else {
      assert Shown(env, Str("")) == "" && Strip("") == "";
    }
  }

  lemma PasswordMeans(env: Env, j: Json, drawn: nat)
    requires j.Obj?
    ensures var (password, next) := EnsurePassword(env, Get(j.fields, "password", Null), drawn);
            && (password.Ok? <==> Blank(env, j.fields, "password") || j.fields["password"].Str?)
            && (password.Err? ==> password == Err(WrongType) && next == drawn)
            && (password.Ok? ==> SaysPassword(env, j, password.value, drawn) && next == drawn + UserCost(j))
  {
    var v := Get(j.fields, "password", Null);
    FalsyIff(env, v);
    if v.Str? {
      TrimEmptyIff(v.s);
      StripTrims(v.s);
    }
  }

  lemma SubjectsMean(env: Env, fields: map<string, Json>, key: string)
    requires ListOrMissing(fields, key)
    ensures var items := Get(fields, key, Arr([])).items;
            SaysSubjects(env, fields, key, seq(|items|, i requires 0 <= i < |items| => Shown(env, items[i])))
  {
  }

  lemma PermissionsMean(env: Env, fields: map<string, Json>)
    ensures var taken := TakePermissions(env, Get(fields, "permissions", Null));
            && (taken.Ok? <==> Blank(env, fields, "permissions") ||
                               (fields["permissions"].Obj? && ListOrMissing(fields["permissions"].fields, "publish")
                                && ListOrMissing(fields["permissions"].fields, "subscribe")))
            && (taken.Err? ==> taken == Err(if fields["permissions"].Obj? then PermissionsNotLists else WrongType))
            && (taken.Ok? ==> SaysPermissions(env, fields, taken.value))
  {
    var v := Get(fields, "permissions", Null);
    FalsyIff(env, v);
    if v.Obj? {
      if ListOrMissing(v.fields, "publish") { SubjectsMean(env, v.fields, "publish"); }
      if ListOrMissing(v.fields, "subscribe") { SubjectsMean(env, v.fields, "subscribe"); }
    }
  }

  lemma UserMeans(env: Env, account: string, j: Json, side: Side)
    ensures var (user, side') := TakeUser(env, account, j, side);
            && (user.Ok? <==> RendersUser(env, j))
            && (user.Ok? ==> SaysUser(env, j, user.value, side.drawn) && side'.drawn == side.drawn + UserCost(j))
  {
    if j.Obj? {
      var name := UserName(env, j.fields);
      UserNameIff(env, j.fields, name);
      forall other ensures SaysUserName(env, j.fields, other) <==> other == name {
        UserNameIff(env, j.fields, other);
      }
      PasswordMeans(env, j, side.drawn);
      PermissionsMean(env, j.fields);
    }
  }

  // ------------------------------------------------------------------------------------------
  // All of them.

  /** Every user of the list is rendered. */
  ghost predicate RendersUsers(env: Env, js: seq<Json>) {
    forall k :: 0 <= k < |js| ==> RendersUser(env, js[k])
  }

  lemma RendersUsersCons(env: Env, js: seq<Json>)
    requires js != []
    ensures RendersUsers(env, js) <==> RendersUser(env, js[0]) && RendersUsers(env, js[1..])
  {
    assert forall k :: 0 < k < |js| ==> js[k] == js[1..][k - 1];
  }

  lemma SaysUsersCons(env: Env, js: seq<Json>, user: User, more: seq<User>, start: nat, next: nat)
    requires js != [] && SaysUser(env, js[0], user, start) && next == start + UserCost(js[0])
    requires SaysUsers(env, js[1..], more, next)
    ensures SaysUsers(env, js, [user] + more, start)
  {
    assert ([user] + more)[1..] == more;
  }

  lemma UsersCostCons(js: seq<Json>, start: nat, next: nat, end: nat)
    requires js != [] && next == start + UserCost(js[0]) && end == next + UsersCost(js[1..])
    ensures end == start + UsersCost(js)
  {
  }

  lemma TakeUsersCons(env: Env, account: string, js: seq<Json>, side: Side)
    requires js != []
    ensures var (user, side1) := TakeUser(env, account, js[0], side);
            var (more, side2) := TakeUsers(env, account, js[1..], side1);
            TakeUsers(env, account, js, side) ==
            if user.Err? then (Err(user.error), side1)
            else if more.Err? then (Err(more.error), side2) else (Ok([user.value] + more.value), side2)
  {
  }

  /** What is known of the users taken so far. */
  ghost predicate UsersDone(env: Env, js: seq<Json>, users: Result<seq<User>, Fault>, start: nat, end: nat) {
    && (users.Ok? <==> RendersUsers(env, js))
    && (users.Ok? ==> SaysUsers(env, js, users.value, start) && end == start + UsersCost(js))
  }

  lemma UsersDoneCons(env: Env, js: seq<Json>, user: Result<User, Fault>, more: Result<seq<User>, Fault>,
                      all: Result<seq<User>, Fault>, start: nat, next: nat, end: nat)
    requires js != [] && UsersDone(env, js[1..], more, next, end)
    requires user.Ok? <==> RendersUser(env, js[0])
    requires user.Ok? ==> SaysUser(env, js[0], user.value, start) && next == start + UserCost(js[0])
    requires all.Ok? <==> user.Ok? && more.Ok?
    requires all.Ok? ==> all.value == [user.value] + more.value
    ensures UsersDone(env, js, all, start, end)
  {
    RendersUsersCons(env, js);
    if all.Ok? {
      SaysUsersCons(env, js, user.value, more.value, start, next);
      UsersCostCons(js, start, next, end);
    }
  }

  lemma {:induction false} UsersMean(env: Env, account: string, js: seq<Json>, side: Side)
    ensures var (users, side') := TakeUsers(env, account, js, side);
            UsersDone(env, js, users, side.drawn, side'.drawn)
    decreases |js|
  {
    if js != [] {
      var (user, side1) := TakeUser(env, account, js[0], side);
      var (more, side2) := TakeUsers(env, account, js[1..], side1);
      UserMeans(env, account, js[0], side);
      UsersMean(env, account, js[1..], side1);
      TakeUsersCons(env, account, js, side);
      if user.Ok? {
        UsersDoneCons(env, js, user, more, TakeUsers(env, account, js, side).0, side.drawn, side1.drawn, side2.drawn);
      } else {
        RendersUsersCons(env, js);
      }
    }
  }

  lemma AccountNameIff(env: Env, fields: map<string, Json>)
    ensures AccountName(env, fields) != "" <==>
            "name" in fields && exists name :: name != "" && ShowsTrimmed(env, fields["name"], name)
    ensures "name" in fields ==> ShowsTrimmed(env, fields["name"], AccountName(env, fields))
  {
    if "name" in fields {
      forall other ensures ShowsTrimmed(env, fields["name"], other) <==> other == AccountName(env, fields) {
        TrimmedIff(env, fields["name"], other);
      }
      assert ShowsTrimmed(env, fields["name"], AccountName(env, fields));
    } else {
      assert Shown(env, Str("")) == "" && Strip("") == "";
    }
  }

  lemma AccountMeans(env: Env, j: Json, side: Side)
    ensures var (account, side') := TakeAccount(env, j, side);
            && (account.Ok? <==> RendersAccount(env, j))
            && (account.Ok? ==> SaysAccount(env, j, account.value, side.drawn)
                                && side'.drawn == side.drawn + UsersCost(UsersOf(j)))
  {
    if j.Obj? {
      AccountNameIff(env, j.fields);
      UsersMean(env, AccountName(env, j.fields), UsersOf(j), side);
    }
  }

  /** Every account of the list is rendered. */
  ghost predicate RendersAccounts(env: Env, js: seq<Json>) {
    forall k :: 0 <= k < |js| ==> RendersAccount(env, js[k])
  }

  lemma RendersAccountsCons(env: Env, js: seq<Json>)
    requires js != []
    ensures RendersAccounts(env, js) <==> RendersAccount(env, js[0]) && RendersAccounts(env, js[1..])
  {
    assert forall k :: 0 < k < |js| ==> js[k] == js[1..][k - 1];
  }

  /** What is known of the accounts taken so far. */
  ghost predicate AccountsDone(env: Env, js: seq<Json>, accounts: Result<seq<Account>, Fault>, start: nat) {
    (accounts.Ok? <==> RendersAccounts(env, js)) && (accounts.Ok? ==> SaysAccounts(env, js, accounts.value, start))
  }

  lemma AccountsDoneCons(env: Env, js: seq<Json>, account: Result<Account, Fault>, more: Result<seq<Account>, Fault>,
                         all: Result<seq<Account>, Fault>, start: nat, next: nat)
    requires js != [] && AccountsDone(env, js[1..], more, next)
    requires account.Ok? <==> RendersAccount(env, js[0])
    requires account.Ok? ==> SaysAccount(env, js[0], account.value, start) && next == start + UsersCost(UsersOf(js[0]))
    requires all.Ok? <==> account.Ok? && more.Ok?
    requires all.Ok? ==> all.value == [account.value] + more.value
    ensures AccountsDone(env, js, all, start)
  {
    RendersAccountsCons(env, js);
    if all.Ok? {
      SaysAccountsCons(env, js, account.value, more.value, start, next);
    }
  }

  lemma SaysAccountsCons(env: Env, js: seq<Json>, account: Account, more: seq<Account>, start: nat, next: nat)
    requires js != [] && SaysAccount(env, js[0], account, start) && next == start + UsersCost(UsersOf(js[0]))
    requires SaysAccounts(env, js[1..], more, next)
    ensures SaysAccounts(env, js, [account] + more, start)
  {
    assert ([account] + more)[1..] == more;
  }

  lemma TakeAccountsCons(env: Env, js: seq<Json>, side: Side)
    requires js != []
    ensures var (account, side1) := TakeAccount(env, js[0], side);
            var (more, side2) := TakeAccounts(env, js[1..], side1);
            TakeAccounts(env, js, side) ==
            if account.Err? then (Err(account.error), side1)
            else if more.Err? then (Err(more.error), side2) else (Ok([account.value] + more.value), side2)
  {
  }

  lemma {:induction false} AccountsMean(env: Env, js: seq<Json>, side: Side)
    ensures AccountsDone(env, js, TakeAccounts(env, js, side).0, side.drawn)
    decreases |js|
  {
    if js != [] {
      var (account, side1) := TakeAccount(env, js[0], side);
      var more := TakeAccounts(env, js[1..], side1).0;
      AccountMeans(env, js[0], side);
      AccountsMean(env, js[1..], side1);
      TakeAccountsCons(env, js, side);
      if account.Ok? {
        AccountsDoneCons(env, js, account, more, TakeAccounts(env, js, side).0, side.drawn, side1.drawn);
      } else {
        RendersAccountsCons(env, js);
      }
    }
  }

  lemma AccountsCostOfPrefix(js: seq<Json>, k: nat)
    requires 0 < k <= |js|
    ensures AccountsCost(js[..k]) == UsersCost(UsersOf(js[0])) + AccountsCost(js[1..][..k - 1])
  {
    assert js[..k][0] == js[0] && js[..k][1..] == js[1..][..k - 1];
  }

  lemma {:induction false} SameNumber(env: Env, js: seq<Json>, accounts: seq<Account>, start: nat)
    requires SaysAccounts(env, js, accounts, start)
    ensures |accounts| == |js|
    decreases |js|
  {
    if js != [] {
      SameNumber(env, js[1..], accounts[1..], start + UsersCost(UsersOf(js[0])));
    }
  }

  /** The k-th account of what is said; `at` passwords have been generated before it. */
  lemma {:induction false} AccountAt(env: Env, js: seq<Json>, accounts: seq<Account>, start: nat, k: nat, at: nat)
    requires SaysAccounts(env, js, accounts, start) && k < |js| && at == start + AccountsCost(js[..k])
    ensures k < |accounts| && SaysAccount(env, js[k], accounts[k], at)
    decreases |js|
  {
    if k == 0 {
      assert at == start;
    } else {
      AccountsCostOfPrefix(js, k);
      AccountAt(env, js[1..], accounts[1..], start + UsersCost(UsersOf(js[0])), k - 1, at);
      assert js[1..][k - 1] == js[k] && accounts[1..][k - 1] == accounts[k];
    }
  }

  lemma UsersCostOfPrefix(js: seq<Json>, k: nat)
    requires 0 < k <= |js|
    ensures UsersCost(js[..k]) == UserCost(js[0]) + UsersCost(js[1..][..k - 1])
  {
    assert js[..k][0] == js[0] && js[..k][1..] == js[1..][..k - 1];
  }

  /** The k-th user of what is said of an account; `at` passwords have been generated before it. */
  lemma {:induction false} UserAt(env: Env, js: seq<Json>, users: seq<User>, start: nat, k: nat, at: nat)
    requires SaysUsers(env, js, users, start) && k < |js| && at == start + UsersCost(js[..k])
    ensures k < |users| && SaysUser(env, js[k], users[k], at)
    decreases |js|
  {
    if k == 0 {
      assert at == start;
    } else {
      UsersCostOfPrefix(js, k);
      UserAt(env, js[1..], users[1..], start + UserCost(js[0]), k - 1, at);
      assert js[1..][k - 1] == js[k] && users[1..][k - 1] == users[k];
    }
  }

  /**
   What a reader of a successful rendering finds is what the specification says, account for account and user for
   user, generated passwords in their order.
   */
  lemma ReaderFindsSpecification(env: Env, js: seq<Json>, side: Side, text: string)
    requires AllBare(env, js) && TakeAccounts(env, js, side).0.Ok?
    requires text == PrintBlock(TakeAccounts(env, js, side).0.value)
    ensures ParseBlock(text).Some? && SaysAccounts(env, js, ParseBlock(text).value, side.drawn)
  {
    AccountsMean(env, js, side);
    SaidReadsBack(env, js, TakeAccounts(env, js, side).0.value, side.drawn);
  }

  lemma SaidReadsBack(env: Env, js: seq<Json>, accounts: seq<Account>, start: nat)
    requires AllBare(env, js) && SaysAccounts(env, js, accounts, start)
    ensures ParseBlock(PrintBlock(accounts)) == Some(accounts)
  {
    SameNumber(env, js, accounts, start);
    forall i | 0 <= i < |accounts| ensures accounts[i].users != [] && NatsText.IsBare(accounts[i].name) {
      var at := start + AccountsCost(js[..i]);
      AccountAt(env, js, accounts, start, i, at);
      SaidAccountFits(env, js[i], accounts[i], at);
    }
    BlockRoundTripIff(accounts);
  }

  lemma SaidAccountFits(env: Env, j: Json, account: Account, start: nat)
    requires SaysAccount(env, j, account, start)
    ensures account.users != [] && "name" in (if j.Obj? then j.fields else map[])
    ensures ShowsTrimmed(env, j.fields["name"], account.name)
  {
  }

  /** Every account name is a bare word. */
  ghost predicate AllBare(env: Env, js: seq<Json>) {
    forall k :: 0 <= k < |js| && js[k].Obj? && "name" in js[k].fields ==>
      forall name :: ShowsTrimmed(env, js[k].fields["name"], name) ==> NatsText.IsBare(name)
  }
}
