/** Rendering the accounts block from the JSON specification, with the credential manifest filled on the side. */
module NatsRender {
  import opened Prelude
  import opened Json
  import opened NatsText
  import opened NatsAccounts
  import opened NatsSpec
  import opened NatsMeaning

  lemma UsersFrom(env: Env, account: string, js: seq<Json>, i: nat, side: Side)
    requires i < |js|
    ensures var (user, side1) := TakeUser(env, account, js[i], side);
            var (more, side2) := TakeUsers(env, account, js[i + 1..], side1);
            TakeUsers(env, account, js[i..], side) ==
            if user.Err? then (Err(user.error), side1)
            else (if more.Ok? then Ok([user.value] + more.value) else Err(more.error), side2)
  {
    assert js[i..][0] == js[i] && js[i..][1..] == js[i + 1..];
  }

  lemma AccountsFrom(env: Env, js: seq<Json>, i: nat, side: Side)
    requires i < |js|
    ensures var (account, side1) := TakeAccount(env, js[i], side);
            var (more, side2) := TakeAccounts(env, js[i + 1..], side1);
            TakeAccounts(env, js[i..], side) ==
            if account.Err? then (Err(account.error), side1)
            else (if more.Ok? then Ok([account.value] + more.value) else Err(more.error), side2)
  {
    assert js[i..][0] == js[i] && js[i..][1..] == js[i + 1..];
  }

  // ------------------------------------------------------------------------------------------
  // The loops of the script.

  /** The text of a block, if there is one. */
  function Printed(taken: Result<seq<Account>, Fault>): Result<string, Fault> {
    if taken.Ok? then Ok(PrintBlock(taken.value)) else Err(taken.error)
  }

  lemma PrintedMeans(env: Env, js: seq<Json>, side: Side)
    ensures var text := Printed(TakeAccounts(env, js, side).0);
            && (text.Ok? <==> RendersAccounts(env, js))
            && (text.Ok? && AllBare(env, js) ==>
                  ParseBlock(text.value).Some? && SaysAccounts(env, js, ParseBlock(text.value).value, side.drawn))
  {
    AccountsMean(env, js, side);
    if TakeAccounts(env, js, side).0.Ok? && AllBare(env, js) {
      ReaderFindsSpecification(env, js, side, PrintBlock(TakeAccounts(env, js, side).0.value));
    }
  }

  class AccountsRenderer {
    const env: Env
    var manifest: Manifest
    var drawn: nat

    constructor (env: Env)
      ensures this.env == env && manifest == map[] && drawn == 0
    {
      this.env, manifest, drawn := env, map[], 0;
    }

    ghost function Filled(): Side
      reads this
    {
      Side(manifest, drawn)
    }

    method RenderUser(account: string, j: Json) returns (text: Result<string, Fault>)
      modifies this
      ensures var (user, side) := TakeUser(env, account, j, old(Filled()));
              Filled() == side && text == (if user.Ok? then Ok(PrintUser(user.value)) else Err(user.error))
    {
      if !j.Obj? { return Err(UserNotObject); }
      var name := UserName(env, j.fields);
      if name == "" { return Err(UserUnnamed); }
      var (password, next) := EnsurePassword(env, Get(j.fields, "password", Null), drawn);
      drawn := next;
      if password.Err? { return Err(password.error); }
      manifest := Record(manifest, account, name, password.value);
      var permissions := TakePermissions(env, Get(j.fields, "permissions", Null));
      if permissions.Err? { return Err(permissions.error); }
      var head := "{\n" + ("  user: " + Quote(name) + "\n") + ("  password: " + Quote(password.value) + "\n");
      if permissions.value.Some? {
        text := Ok(head + ("  " + Indent(PrintPermissions(permissions.value.value), "  ") + "\n") + "}");
      } else {
        assert head + "" == head;
        text := Ok(head + "}");
      }
    }

    method RenderAccount(j: Json) returns (text: Result<string, Fault>)
      modifies this
      ensures var (account, side) := TakeAccount(env, j, old(Filled()));
              Filled() == side && text == (if account.Ok? then Ok(PrintAccount(account.value)) else Err(account.error))
    {
      if !j.Obj? { return Err(AccountNotObject); }
      var name := AccountName(env, j.fields);
      if name == "" { return Err(AccountUnnamed); }
      var users := Get(j.fields, "users", Null);
      if !users.Arr? || users.items == [] { return Err(UsersMissing); }
      var renderedUsers: seq<string> := [];
      ghost var taken: seq<User> := [];
      ghost var whole := TakeUsers(env, name, users.items, Filled());
      assert users.items[0..] == users.items;
      ResumeNothing(whole);
      for i := 0 to |users.items|
        invariant |taken| == i && renderedUsers == PrintUsers(taken)
        invariant whole == Resume(taken, TakeUsers(env, name, users.items[i..], Filled()))
      {
        ghost var user := TakeUser(env, name, users.items[i], Filled()).0;
        UsersFrom(env, name, users.items, i, Filled());
        var entry := RenderUser(name, users.items[i]);
        if entry.Err? { return Err(entry.error); }
        renderedUsers := renderedUsers + [entry.value];
        ResumeMore(taken, user.value, TakeUsers(env, name, users.items[i + 1..], Filled()));
        taken := taken + [user.value];
      }
      ResumeDone(taken, Filled());
      text := Ok(name + " {\n" + "  users: [\n" + Join(PadEach(renderedUsers, "    "), ",\n") + "\n  ]\n" + "}");
    }

    /**
     The text, the manifest and the number of generated passwords, also when rendering stops half-way. It succeeds
     exactly on the specifications described by their fields, and a reader of the text finds what those say.
     */
    method RenderAccountsBlock(accounts: seq<Json>) returns (text: Result<string, Fault>)
      modifies this
      ensures var (taken, side) := TakeAccounts(env, accounts, old(Filled()));
              Filled() == side && text == Printed(taken)
      ensures text.Ok? <==> RendersAccounts(env, accounts)
      ensures text.Ok? && AllBare(env, accounts) ==>
                && ParseBlock(text.value).Some?
                && SaysAccounts(env, accounts, ParseBlock(text.value).value, old(drawn))
    {
      PrintedMeans(env, accounts, Filled());
      var renderedAccounts: seq<string> := [];
      ghost var taken: seq<Account> := [];
      ghost var whole := TakeAccounts(env, accounts, Filled());
      assert accounts[0..] == accounts;
      ResumeNothing(whole);
      for i := 0 to |accounts|
        invariant |taken| == i && renderedAccounts == PrintAccounts(taken)
        invariant whole == Resume(taken, TakeAccounts(env, accounts[i..], Filled()))
      {
        ghost var account := TakeAccount(env, accounts[i], Filled()).0;
        AccountsFrom(env, accounts, i, Filled());
        var entry := RenderAccount(accounts[i]);
        if entry.Err? { return Err(entry.error); }
        renderedAccounts := renderedAccounts + [entry.value];
        ResumeMore(taken, account.value, TakeAccounts(env, accounts[i + 1..], Filled()));
        taken := taken + [account.value];
      }
      ResumeDone(taken, Filled());
      text := Ok("accounts {\n" + Join(PadEach(renderedAccounts, "  "), "\n") + "\n}\n");
    }
  }

  /** The result of a loop that has already taken some entries. */
  function Resume<T>(taken: seq<T>, rest: (Result<seq<T>, Fault>, Side)): (Result<seq<T>, Fault>, Side) {
    (if rest.0.Ok? then Ok(taken + rest.0.value) else rest.0, rest.1)
  }

  lemma ResumeNothing<T>(rest: (Result<seq<T>, Fault>, Side))
    ensures Resume([], rest) == rest
  {
    if rest.0.Ok? { assert [] + rest.0.value == rest.0.value; }
  }

  lemma ResumeMore<T>(taken: seq<T>, next: T, rest: (Result<seq<T>, Fault>, Side))
    ensures Resume(taken + [next], rest)
            == Resume(taken, (if rest.0.Ok? then Ok([next] + rest.0.value) else Err(rest.0.error), rest.1))
  {
    if rest.0.Ok? {
      assert taken + [next] + rest.0.value == taken + ([next] + rest.0.value);
    }
  }

  lemma ResumeDone<T>(taken: seq<T>, side: Side)
    ensures Resume(taken, (Ok([]), side)) == (Ok(taken), side)
  {
    assert taken + [] == taken;
  }

  // ------------------------------------------------------------------------------------------
  // What the text says, and what the manifest says.

  /** One credential. */
  datatype Entry = Entry(account: string, user: string, password: string)

  function EntriesOf(account: string, users: seq<User>): seq<Entry> {
    seq(|users|, i requires 0 <= i < |users| => Entry(account, users[i].name, users[i].password))
  }

  /** The credentials of a configuration, in order. */
  function Entries(accounts: seq<Account>): seq<Entry> {
    if accounts == [] then [] else EntriesOf(accounts[0].name, accounts[0].users) + Entries(accounts[1..])
  }

  /** The manifest of a list of credentials, later ones replacing earlier ones. */
  function Recorded(m: Manifest, entries: seq<Entry>): Manifest
    decreases |entries|
  {
    if entries == [] then m
    else Recorded(Record(m, entries[0].account, entries[0].user, entries[0].password), entries[1..])
  }

  lemma {:induction false} RecordedAppend(m: Manifest, a: seq<Entry>, b: seq<Entry>)
    ensures Recorded(m, a + b) == Recorded(Recorded(m, a), b)
    decreases |a|
  {
    if a == [] {
      assert a + b == b;
    } else {
      assert (a + b)[1..] == a[1..] + b;
      RecordedAppend(Record(m, a[0].account, a[0].user, a[0].password), a[1..], b);
    }
  }

  lemma {:induction false} UsersRecorded(env: Env, account: string, js: seq<Json>, side: Side)
    requires TakeUsers(env, account, js, side).0.Ok?
    ensures var (users, side') := TakeUsers(env, account, js, side);
            side'.manifest == Recorded(side.manifest, EntriesOf(account, users.value)) && |users.value| == |js|
    decreases |js|
  {
    if js != [] {
      var (user, side1) := TakeUser(env, account, js[0], side);
      var more := TakeUsers(env, account, js[1..], side1).0.value;
      UsersRecorded(env, account, js[1..], side1);
      var entries := EntriesOf(account, [user.value] + more);
      assert entries[1..] == EntriesOf(account, more);
    }
  }

  /** A successful rendering records exactly the printed credentials, and every printed account has users. */
  lemma {:induction false} AccountsRecorded(env: Env, js: seq<Json>, side: Side)
    requires TakeAccounts(env, js, side).0.Ok?
    ensures var (accounts, side') := TakeAccounts(env, js, side);
            && side'.manifest == Recorded(side.manifest, Entries(accounts.value))
            && forall i :: 0 <= i < |accounts.value| ==> accounts.value[i].users != []
    decreases |js|
  {
    if js != [] {
      var (account, side1) := TakeAccount(env, js[0], side);
      var users := Get(js[0].fields, "users", Null);
      UsersRecorded(env, account.value.name, users.items, side);
      AccountsRecorded(env, js[1..], side1);
      var more := TakeAccounts(env, js[1..], side1).0.value;
      assert ([account.value] + more)[1..] == more;
      RecordedAppend(side.manifest, EntriesOf(account.value.name, account.value.users), Entries(more));
    }
  }

  function Lookup(m: Manifest, account: string, user: string): Option<string> {
    if account in m && user in m[account] then Some(m[account][user]) else None
  }

  /** The password of the last credential for this account and user. */
  function LastPassword(entries: seq<Entry>, account: string, user: string): Option<string> {
    if entries == [] then None
    else
      var last := entries[|entries| - 1];
      if last.account == account && last.user == user then Some(last.password)
      else LastPassword(entries[..|entries| - 1], account, user)
  }

  lemma {:induction false} RecordedLookup(entries: seq<Entry>, account: string, user: string)
    ensures Lookup(Recorded(map[], entries), account, user) == LastPassword(entries, account, user)
    ensures account in Recorded(map[], entries) ==> Recorded(map[], entries)[account] != map[]
    decreases |entries|
  {
    if entries != [] {
      var n := |entries| - 1;
      var before, last := entries[..n], entries[n];
      assert entries == before + [last];
      RecordedLookup(before, account, user);
      RecordedAppend(map[], before, [last]);
      assert [last][1..] == [];
      assert Recorded(map[], entries) == Record(Recorded(map[], before), last.account, last.user, last.password);
      if account == last.account {
        assert last.user in Recorded(map[], entries)[account];
      }
    }
  }

  /** Where an account and user pair is repeated, so is its password. */
  predicate OnePasswordEach(entries: seq<Entry>) {
    forall i, j :: 0 <= i < |entries| && 0 <= j < |entries|
                   && entries[i].account == entries[j].account && entries[i].user == entries[j].user ==>
                     entries[i].password == entries[j].password
  }

  lemma {:induction false} LastIsListed(entries: seq<Entry>, account: string, user: string)
    requires LastPassword(entries, account, user).Some?
    ensures Entry(account, user, LastPassword(entries, account, user).value) in entries
    decreases |entries|
  {
    var n := |entries| - 1;
    if !(entries[n].account == account && entries[n].user == user) {
      LastIsListed(entries[..n], account, user);
    }
  }

  /**
   Reading the rendered text back gives exactly the accounts taken from the specification if and only
   if every account name is a bare word.
   */
  lemma TextReadsBack(env: Env, js: seq<Json>)
    requires TakeAccounts(env, js, Side(map[], 0)).0.Ok?
    ensures var accounts := TakeAccounts(env, js, Side(map[], 0)).0.value;
            ParseBlock(PrintBlock(accounts)) == Some(accounts)
            <==> forall i :: 0 <= i < |accounts| ==> IsBare(accounts[i].name)
  {
    AccountsRecorded(env, js, Side(map[], 0));
    BlockRoundTripIff(TakeAccounts(env, js, Side(map[], 0)).0.value);
  }

  /**
   The manifest and the file agree: whatever the reader of the file finds as the last password of an
   account's user, generated ones included, is what the manifest holds, and it holds nothing else.
   */
  lemma ManifestMatchesFile(env: Env, js: seq<Json>, account: string, user: string)
    requires TakeAccounts(env, js, Side(map[], 0)).0.Ok?
    requires forall a :: a in TakeAccounts(env, js, Side(map[], 0)).0.value ==> IsBare(a.name)
    ensures var (accounts, side) := TakeAccounts(env, js, Side(map[], 0));
            && ParseBlock(PrintBlock(accounts.value)).Some?
            && var file := ParseBlock(PrintBlock(accounts.value)).value;
            && Lookup(side.manifest, account, user) == LastPassword(Entries(file), account, user)
            && (account in side.manifest <==> exists e :: e in Entries(file) && e.account == account)
  {
    var (taken, side) := TakeAccounts(env, js, Side(map[], 0));
    var accounts := taken.value;
    forall i | 0 <= i < |accounts| ensures IsBare(accounts[i].name) { assert accounts[i] in accounts; }
    TextReadsBack(env, js);
    AccountsRecorded(env, js, Side(map[], 0));
    var entries := Entries(accounts);
    RecordedLookup(entries, account, user);
    if account in side.manifest {
      var u :| u in side.manifest[account];
      RecordedLookup(entries, account, u);
      LastIsListed(entries, account, u);
    }
    if e :| e in entries && e.account == account {
      RecordedLookup(entries, account, e.user);
      LastIsSome(entries, e);
    }
  }

  lemma {:induction false} LastIsSome(entries: seq<Entry>, e: Entry)
    requires e in entries
    ensures LastPassword(entries, e.account, e.user).Some?
    decreases |entries|
  {
    var n := |entries| - 1;
    if e != entries[n] {
      assert entries == entries[..n] + [entries[n]];
      LastIsSome(entries[..n], e);
    }
  }

  /** The manifest holds exactly the printed credentials if and only if repeated pairs repeat their password. */
  lemma ManifestExactIff(env: Env, js: seq<Json>)
    requires TakeAccounts(env, js, Side(map[], 0)).0.Ok?
    ensures var (accounts, side) := TakeAccounts(env, js, Side(map[], 0));
            var entries := Entries(accounts.value);
            (forall a, u, p :: Lookup(side.manifest, a, u) == Some(p) <==> Entry(a, u, p) in entries)
            <==> OnePasswordEach(entries)
  {
    var (taken, side) := TakeAccounts(env, js, Side(map[], 0));
    var entries := Entries(taken.value);
    AccountsRecorded(env, js, Side(map[], 0));
    ExactIff(entries);
  }

  lemma ExactIff(entries: seq<Entry>)
    ensures var m := Recorded(map[], entries);
            (forall a, u, p :: Lookup(m, a, u) == Some(p) <==> Entry(a, u, p) in entries) <==> OnePasswordEach(entries)
  {
    var m := Recorded(map[], entries);
    if OnePasswordEach(entries) {
      forall a, u, p ensures Lookup(m, a, u) == Some(p) <==> Entry(a, u, p) in entries {
        RecordedLookup(entries, a, u);
        if Entry(a, u, p) in entries {
          LastIsSome(entries, Entry(a, u, p));
        }
        if LastPassword(entries, a, u).Some? {
          LastIsListed(entries, a, u);
        }
      }
    } else {
      var i, j :| 0 <= i < |entries| && 0 <= j < |entries|
                  && entries[i].account == entries[j].account && entries[i].user == entries[j].user
                  && entries[i].password != entries[j].password;
      var a, u := entries[i].account, entries[i].user;
      assert entries[i] == Entry(a, u, entries[i].password) && entries[j] == Entry(a, u, entries[j].password);
      assert Entry(a, u, entries[i].password) in entries && Entry(a, u, entries[j].password) in entries;
      assert Lookup(m, a, u) != Some(entries[i].password) || Lookup(m, a, u) != Some(entries[j].password);
    }
  }
}
