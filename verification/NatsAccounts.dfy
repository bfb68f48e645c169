/** The accounts block of the NATS configuration: printing it, reading it back, and the round trip. */
module NatsAccounts {
  import opened Prelude
  import opened NatsText

  datatype Permissions = Permissions(publish: seq<string>, subscribe: seq<string>)

  datatype User = User(name: string, password: string, permissions: Option<Permissions>)

  datatype Account = Account(name: string, users: seq<User>)

  // ------------------------------------------------------------------------------------------
  // Printing.

  function QuoteEach(values: seq<string>): seq<string> {
    seq(|values|, i requires 0 <= i < |values| => Quote(values[i]))
  }

  function QuotedList(values: seq<string>): string {
    "[" + Join(QuoteEach(values), ", ") + "]"
  }

  function PrintPermissions(p: Permissions): string {
    "permissions: {" + "\n" + ("  publish: " + QuotedList(p.publish)) + "\n"
    + ("  subscribe: " + QuotedList(p.subscribe)) + "\n" + "}"
  }

  function PrintUser(u: User): string {
    "{\n" + ("  user: " + Quote(u.name) + "\n") + ("  password: " + Quote(u.password) + "\n")
    + (if u.permissions.Some? then "  " + Indent(PrintPermissions(u.permissions.value), "  ") + "\n" else "")
    + "}"
  }

  function PadEach(texts: seq<string>, pad: string): seq<string> {
    seq(|texts|, i requires 0 <= i < |texts| => pad + Indent(texts[i], pad))
  }

  function PrintUsers(users: seq<User>): seq<string> {
    seq(|users|, i requires 0 <= i < |users| => PrintUser(users[i]))
  }

  function PrintAccount(a: Account): string {
    a.name + " {\n" + "  users: [\n" + Join(PadEach(PrintUsers(a.users), "    "), ",\n") + "\n  ]\n" + "}"
  }

  function PrintAccounts(accounts: seq<Account>): seq<string> {
    seq(|accounts|, i requires 0 <= i < |accounts| => PrintAccount(accounts[i]))
  }

  function PrintBlock(accounts: seq<Account>): string {
    "accounts {\n" + Join(PadEach(PrintAccounts(accounts), "  "), "\n") + "\n}\n"
  }

  // ------------------------------------------------------------------------------------------
  // Reading.

  function Eat(t: seq<Token>, token: Token): Option<seq<Token>> {
    if t != [] && t[0] == token then Some(t[1..]) else None
  }

  function EatText(t: seq<Token>): Option<(string, seq<Token>)> {
    if t != [] && t[0].Text? then Some((t[0].s, t[1..])) else None
  }

  /** `name:` */
  function EatField(t: seq<Token>, name: string): Option<seq<Token>> {
    var t1 :- Eat(t, Word(name));
    Eat(t1, Colon)
  }

  /** Strings separated by commas, up to the closing bracket. */
  function ReadItems(t: seq<Token>): (r: Option<(seq<string>, seq<Token>)>)
    decreases |t|
  {
    var (s, t1) :- EatText(t);
    if t1 != [] && t1[0] == Comma then
      var (more, t2) :- ReadItems(t1[1..]);
      Some(([s] + more, t2))
    else
      var t2 :- Eat(t1, RBrack);
      Some(([s], t2))
  }

  function ReadList(t: seq<Token>): Option<(seq<string>, seq<Token>)> {
    var t1 :- Eat(t, LBrack);
    if t1 != [] && t1[0] == RBrack then Some(([], t1[1..])) else ReadItems(t1)
  }

  function ReadPermissions(t: seq<Token>): Option<(Permissions, seq<Token>)> {
    var t1 :- EatField(t, "permissions");
    var t2 :- Eat(t1, LBrace);
    var t3 :- EatField(t2, "publish");
    var (publish, t4) :- ReadList(t3);
    var t5 :- EatField(t4, "subscribe");
    var (subscribe, t6) :- ReadList(t5);
    var t7 :- Eat(t6, RBrace);
    Some((Permissions(publish, subscribe), t7))
  }

  function ReadUser(t: seq<Token>): Option<(User, seq<Token>)> {
    var t1 :- Eat(t, LBrace);
    var t2 :- EatField(t1, "user");
    var (name, t3) :- EatText(t2);
    var t4 :- EatField(t3, "password");
    var (password, t5) :- EatText(t4);
    if t5 != [] && t5[0] == RBrace then Some((User(name, password, None), t5[1..]))
    else
      var (permissions, t6) :- ReadPermissions(t5);
      var t7 :- Eat(t6, RBrace);
      Some((User(name, password, Some(permissions)), t7))
  }

  /** Users separated by commas, up to the closing bracket. */
  function ReadUsers(t: seq<Token>): Option<(seq<User>, seq<Token>)>
    decreases |t|
  {
    var (user, t1) :- ReadUser(t);
    if t1 != [] && t1[0] == Comma && |t1| <= |t| then
      var (more, t2) :- ReadUsers(t1[1..]);
      Some(([user] + more, t2))
    else
      var t2 :- Eat(t1, RBrack);
      Some(([user], t2))
  }

  function ReadAccount(t: seq<Token>): Option<(Account, seq<Token>)> {
    if t == [] || !t[0].Word? then None
    else
      var t1 :- Eat(t[1..], LBrace);
      var t2 :- EatField(t1, "users");
      var t3 :- Eat(t2, LBrack);
      var (users, t4) :- ReadUsers(t3);
      var t5 :- Eat(t4, RBrace);
      Some((Account(t[0].w, users), t5))
  }

  /** Accounts up to the closing brace that ends the text. */
  function ReadAccounts(t: seq<Token>): Option<seq<Account>>
    decreases |t|
  {
    if t == [RBrace] then Some([])
    else
      var (account, t1) :- ReadAccount(t);
      if |t1| < |t| then
        var more :- ReadAccounts(t1);
        Some([account] + more)
      else None
  }

  /** Reading the whole text. */
  function ParseBlock(text: string): Option<seq<Account>> {
    var t :- Lex(text);
    var t1 :- Eat(t, Word("accounts"));
    var t2 :- Eat(t1, LBrace);
    ReadAccounts(t2)
  }

  // ------------------------------------------------------------------------------------------
  // The tokens of each printed part.

  function ItemTokens(values: seq<string>): seq<Token> {
    if values == [] then []
    else if |values| == 1 then [Text(values[0])]
    else [Text(values[0]), Comma] + ItemTokens(values[1..])
  }

  function ListTokens(values: seq<string>): seq<Token> {
    [LBrack] + ItemTokens(values) + [RBrack]
  }

  function PermissionTokens(p: Permissions): seq<Token> {
    [Word("permissions"), Colon, LBrace] + ([Word("publish"), Colon] + ListTokens(p.publish))
    + ([Word("subscribe"), Colon] + ListTokens(p.subscribe)) + [RBrace]
  }

  function UserTokens(u: User): seq<Token> {
    [LBrace] + [Word("user"), Colon, Text(u.name)] + [Word("password"), Colon, Text(u.password)]
    + (if u.permissions.Some? then PermissionTokens(u.permissions.value) else []) + [RBrace]
  }

  function UsersTokens(users: seq<User>): seq<Token> {
    if users == [] then []
    else if |users| == 1 then UserTokens(users[0])
    else UserTokens(users[0]) + [Comma] + UsersTokens(users[1..])
  }

  function AccountTokens(a: Account): seq<Token> {
    [Word(a.name), LBrace] + [Word("users"), Colon, LBrack] + UsersTokens(a.users) + [RBrack] + [RBrace]
  }

  function AccountsTokens(accounts: seq<Account>): seq<Token> {
    if accounts == [] then [] else AccountTokens(accounts[0]) + AccountsTokens(accounts[1..])
  }

  /** A text with these tokens, not ending inside a word: such texts can be put side by side. */
  predicate Piece(s: string, t: seq<Token>) {
    Lex(s) == Some(t) && (s == "" || !IsWordChar(s[|s| - 1]))
  }

  lemma Glue(a: string, ta: seq<Token>, b: string, tb: seq<Token>)
    requires Piece(a, ta) && Piece(b, tb)
    ensures Piece(a + b, ta + tb)
  {
    Beside(a, ta, b, tb);
    if b == "" { assert a + b == a; }
  }

  lemma Glue3(a: string, ta: seq<Token>, b: string, tb: seq<Token>, c: string, tc: seq<Token>)
    requires Piece(a, ta) && Piece(b, tb) && Piece(c, tc)
    ensures Piece(a + b + c, ta + tb + tc)
  {
    Glue(a, ta, b, tb);
    Glue(a + b, ta + tb, c, tc);
  }

  lemma Glue4(a: string, ta: seq<Token>, b: string, tb: seq<Token>, c: string, tc: seq<Token>, d: string,
              td: seq<Token>)
    requires Piece(a, ta) && Piece(b, tb) && Piece(c, tc) && Piece(d, td)
    ensures Piece(a + b + c + d, ta + tb + tc + td)
  {
    Glue3(a, ta, b, tb, c, tc);
    Glue(a + b + c, ta + tb + tc, d, td);
  }

  lemma Glue5(a: string, ta: seq<Token>, b: string, tb: seq<Token>, c: string, tc: seq<Token>,
              d: string, td: seq<Token>, e: string, te: seq<Token>)
    requires Piece(a, ta) && Piece(b, tb) && Piece(c, tc) && Piece(d, td) && Piece(e, te)
    ensures Piece(a + b + c + d + e, ta + tb + tc + td + te)
  {
    Glue4(a, ta, b, tb, c, tc, d, td);
    Glue(a + b + c + d, ta + tb + tc + td, e, te);
  }

  /** Padding and re-indenting a piece leaves its tokens. */
  lemma Padded(s: string, t: seq<Token>, pad: string)
    requires Piece(s, t) && s != "" && forall c :: c in pad ==> IsBlank(c)
    ensures Piece(pad + Indent(s, pad), t)
  {
    IndentKeepsTokens(s, pad);
    LexBlanks(pad, Indent(s, pad));
    IndentLast(s, pad);
  }

  /** A text that ends in a closing mark still does after re-indentation. */
  lemma {:induction false} IndentLast(s: string, pad: string)
    requires s != "" && !IsWordChar(s[|s| - 1]) && (forall c :: c in pad ==> IsBlank(c))
    ensures Indent(s, pad) != "" && !IsWordChar(Indent(s, pad)[|Indent(s, pad)| - 1])
  {
    IndentAppend(s[..|s| - 1], [s[|s| - 1]], pad);
    assert s == s[..|s| - 1] + [s[|s| - 1]];
    assert pad != "" ==> pad[|pad| - 1] in pad;
    var last := Indent([s[|s| - 1]], pad);
    assert last == if s[|s| - 1] == '\n' then "\n" + pad else [s[|s| - 1]];
  }

  lemma BlankPiece(pad: string)
    requires forall c :: c in pad ==> IsBlank(c)
    ensures Piece(pad, [])
  {
    OnlyBlanks(pad);
    assert pad != "" ==> pad[|pad| - 1] in pad;
  }

  lemma MarkPiece(before: string, c: char, after: string)
    requires (forall d :: d in before + after ==> IsBlank(d)) && Punctuation(c).Some?
    ensures Piece(before + [c] + after, [Punctuation(c).value])
  {
    OneMark(before, c, after);
    if after != "" { assert after[|after| - 1] in before + after; }
  }

  lemma QuotePiece(s: string)
    ensures Piece(Quote(s), [Text(s)])
  {
    LexQuote(s);
  }

  /** Blanks, a name, a colon, a blank. */
  lemma FieldPiece(pad: string, name: string)
    requires IsBare(name) && forall c :: c in pad ==> IsBlank(c)
    ensures Piece(pad + name + ": ", [Word(name), Colon])
  {
    OnlyBlanks(pad);
    OneMark("", ':', " ");
    assert "" + [':'] + " " == ": ";
    assert pad != "" ==> pad[|pad| - 1] in pad;
    WordBetween(pad, [], name, ": ", [Colon]);
    assert [] + [Word(name)] + [Colon] == [Word(name), Colon];
  }

  /** A name, a blank, an opening brace, a line end. */
  lemma HeadPiece(name: string)
    requires IsBare(name)
    ensures Piece(name + " {\n", [Word(name), LBrace])
  {
    OnlyBlanks("");
    OneMark(" ", '{', "\n");
    assert " " + ['{'] + "\n" == " {\n";
    WordBetween("", [], name, " {\n", [LBrace]);
    assert "" + name + " {\n" == name + " {\n" && [] + [Word(name)] + [LBrace] == [Word(name), LBrace];
  }

  lemma ClosingBrace()
    ensures Piece("}", [RBrace])
  {
    MarkPiece("", '}', "");
    assert "" + ['}'] + "" == "}";
  }

  lemma CommaLine()
    ensures Piece(",\n", [Comma])
  {
    MarkPiece("", ',', "\n");
    assert "" + [','] + "\n" == ",\n";
  }

  lemma OpeningLine()
    ensures Piece("{\n", [LBrace])
  {
    MarkPiece("", '{', "\n");
    assert "" + ['{'] + "\n" == "{\n";
  }

  lemma {:induction false} ItemsPiece(values: seq<string>)
    ensures Piece(Join(QuoteEach(values), ", "), ItemTokens(values))
    decreases |values|
  {
    var texts := QuoteEach(values);
    if values == [] {
      BlankPiece("");
    } else {
      QuotePiece(values[0]);
      if |values| > 1 {
        assert texts[1..] == QuoteEach(values[1..]);
        ItemsPiece(values[1..]);
        MarkPiece("", ',', " ");
        assert "" + [','] + " " == ", ";
        Glue3(texts[0], [Text(values[0])], ", ", [Comma], Join(texts[1..], ", "), ItemTokens(values[1..]));
        assert [Text(values[0])] + [Comma] == [Text(values[0]), Comma];
      }
    }
  }

  lemma ListPiece(values: seq<string>)
    ensures Piece(QuotedList(values), ListTokens(values))
  {
    ItemsPiece(values);
    MarkPiece("", '[', "");
    MarkPiece("", ']', "");
    assert "" + ['['] + "" == "[" && "" + [']'] + "" == "]";
    Glue3("[", [LBrack], Join(QuoteEach(values), ", "), ItemTokens(values), "]", [RBrack]);
  }

  /** A field, its value, a line end. */
  lemma LinePiece(name: string, text: string, t: seq<Token>)
    requires IsBare(name) && Piece(text, t)
    ensures Piece("  " + name + ": " + text + "\n", [Word(name), Colon] + t)
  {
    FieldPiece("  ", name);
    BlankPiece("\n");
    Glue3("  " + name + ": ", [Word(name), Colon], text, t, "\n", []);
    assert [Word(name), Colon] + t + [] == [Word(name), Colon] + t;
  }

  lemma PermissionsHeadPiece()
    ensures Piece("permissions: {\n", [Word("permissions"), Colon, LBrace])
  {
    FieldPiece("", "permissions");
    OpeningLine();
    var head := "" + "permissions" + ": ";
    Glue(head, [Word("permissions"), Colon], "{\n", [LBrace]);
    assert head + "{\n" == "permissions: {\n";
    assert [Word("permissions"), Colon] + [LBrace] == [Word("permissions"), Colon, LBrace];
  }

  /** One line of a permissions block. */
  function PermissionLine(name: string, values: seq<string>): string {
    "  " + name + ": " + QuotedList(values) + "\n"
  }

  lemma PermissionLinePiece(name: string, values: seq<string>)
    requires IsBare(name)
    ensures Piece(PermissionLine(name, values), [Word(name), Colon] + ListTokens(values))
  {
    ListPiece(values);
    LinePiece(name, QuotedList(values), ListTokens(values));
  }

  lemma PermissionNamesBare()
    ensures IsBare("publish") && IsBare("subscribe")
  {
  }

  lemma PermissionsPiece(p: Permissions)
    ensures Piece(PrintPermissions(p), PermissionTokens(p))
  {
    PermissionNamesBare();
    PermissionsHeadPiece();
    PermissionLinePiece("publish", p.publish);
    PermissionLinePiece("subscribe", p.subscribe);
    ClosingBrace();
    Glue4("permissions: {\n", [Word("permissions"), Colon, LBrace],
          PermissionLine("publish", p.publish), [Word("publish"), Colon] + ListTokens(p.publish),
          PermissionLine("subscribe", p.subscribe), [Word("subscribe"), Colon] + ListTokens(p.subscribe),
          "}", [RBrace]);
    PermissionsSpelled(p);
  }

  lemma PermissionsSpelled(p: Permissions)
    ensures PrintPermissions(p) == "permissions: {\n" + PermissionLine("publish", p.publish)
                                   + PermissionLine("subscribe", p.subscribe) + "}"
  {
    PermissionLabels();
    RegroupLines("permissions: {", "\n", "  publish: ", QuotedList(p.publish),
                 "  subscribe: ", QuotedList(p.subscribe), "}");
  }

  lemma PermissionLabels()
    ensures "permissions: {" + "\n" == "permissions: {\n"
    ensures "  " + "publish" + ": " == "  publish: " && "  " + "subscribe" + ": " == "  subscribe: "
  {
  }

  lemma RegroupLines(head: string, end: string, a: string, x: string, b: string, y: string, last: string)
    ensures head + end + (a + x) + end + (b + y) + end + last == head + end + (a + x + end) + (b + y + end) + last
  {
  }

  /** What follows the password of a user. */
  lemma ExtraPiece(permissions: Option<Permissions>)
    ensures Piece(if permissions.Some? then "  " + Indent(PrintPermissions(permissions.value), "  ") + "\n" else "",
                  if permissions.Some? then PermissionTokens(permissions.value) else [])
  {
    BlankPiece("");
    if permissions.Some? {
      var p := permissions.value;
      PermissionsPiece(p);
      Padded(PrintPermissions(p), PermissionTokens(p), "  ");
      BlankPiece("\n");
      Glue("  " + Indent(PrintPermissions(p), "  "), PermissionTokens(p), "\n", []);
      assert PermissionTokens(p) + [] == PermissionTokens(p);
    }
  }

  /** One line of a user entry. */
  function UserLine(name: string, text: string): string {
    "  " + name + ": " + Quote(text) + "\n"
  }

  lemma UserLinePiece(name: string, text: string)
    requires IsBare(name)
    ensures Piece(UserLine(name, text), [Word(name), Colon, Text(text)])
  {
    QuotePiece(text);
    LinePiece(name, Quote(text), [Text(text)]);
    assert [Word(name), Colon] + [Text(text)] == [Word(name), Colon, Text(text)];
  }

  lemma UserNamesBare()
    ensures IsBare("user") && IsBare("password")
  {
  }

  lemma UserPiece(u: User)
    ensures Piece(PrintUser(u), UserTokens(u))
  {
    var extra := if u.permissions.Some? then "  " + Indent(PrintPermissions(u.permissions.value), "  ") + "\n" else "";
    var tExtra := if u.permissions.Some? then PermissionTokens(u.permissions.value) else [];
    UserNamesBare();
    OpeningLine();
    UserLinePiece("user", u.name);
    UserLinePiece("password", u.password);
    ExtraPiece(u.permissions);
    ClosingBrace();
    Glue5("{\n", [LBrace], UserLine("user", u.name), [Word("user"), Colon, Text(u.name)],
          UserLine("password", u.password), [Word("password"), Colon, Text(u.password)], extra, tExtra, "}", [RBrace]);
    UserSpelled(u);
  }

  lemma UserSpelled(u: User)
    ensures var extra :=
              if u.permissions.Some? then "  " + Indent(PrintPermissions(u.permissions.value), "  ") + "\n" else "";
            PrintUser(u) == "{\n" + UserLine("user", u.name) + UserLine("password", u.password) + extra + "}"
  {
    assert "  " + "user" + ": " == "  user: " && "  " + "password" + ": " == "  password: ";
  }

  lemma {:induction false} UsersPiece(users: seq<User>)
    ensures Piece(Join(PadEach(PrintUsers(users), "    "), ",\n"), UsersTokens(users))
    decreases |users|
  {
    var texts := PadEach(PrintUsers(users), "    ");
    if users == [] {
      BlankPiece("");
    } else {
      UserPiece(users[0]);
      Padded(PrintUser(users[0]), UserTokens(users[0]), "    ");
      if |users| > 1 {
        assert texts[1..] == PadEach(PrintUsers(users[1..]), "    ");
        UsersPiece(users[1..]);
        CommaLine();
        Glue3(texts[0], UserTokens(users[0]), ",\n", [Comma], Join(texts[1..], ",\n"), UsersTokens(users[1..]));
      }
    }
  }

  lemma UsersHeadPiece()
    ensures Piece("  users: [\n", [Word("users"), Colon, LBrack])
  {
    FieldPiece("  ", "users");
    MarkPiece("", '[', "\n");
    assert "" + ['['] + "\n" == "[\n";
    var head := "  " + "users" + ": ";
    Glue(head, [Word("users"), Colon], "[\n", [LBrack]);
    assert head + "[\n" == "  users: [\n";
    assert [Word("users"), Colon] + [LBrack] == [Word("users"), Colon, LBrack];
  }

  lemma AccountPiece(a: Account)
    requires IsBare(a.name)
    ensures Piece(PrintAccount(a), AccountTokens(a))
  {
    HeadPiece(a.name);
    UsersHeadPiece();
    UsersPiece(a.users);
    MarkPiece("\n  ", ']', "\n");
    assert "\n  " + [']'] + "\n" == "\n  ]\n";
    ClosingBrace();
    Glue5(a.name + " {\n", [Word(a.name), LBrace], "  users: [\n", [Word("users"), Colon, LBrack],
          Join(PadEach(PrintUsers(a.users), "    "), ",\n"), UsersTokens(a.users), "\n  ]\n", [RBrack], "}", [RBrace]);
  }

  lemma {:induction false} AccountsPiece(accounts: seq<Account>)
    requires forall i :: 0 <= i < |accounts| ==> IsBare(accounts[i].name)
    ensures Piece(Join(PadEach(PrintAccounts(accounts), "  "), "\n"), AccountsTokens(accounts))
    decreases |accounts|
  {
    var texts := PadEach(PrintAccounts(accounts), "  ");
    if accounts == [] {
      BlankPiece("");
    } else {
      var first := AccountTokens(accounts[0]);
      AccountPiece(accounts[0]);
      Padded(PrintAccount(accounts[0]), first, "  ");
      assert first + [] == first;
      if |accounts| > 1 {
        assert texts[1..] == PadEach(PrintAccounts(accounts[1..]), "  ");
        AccountsPiece(accounts[1..]);
        BlankPiece("\n");
        Glue3(texts[0], first, "\n", [], Join(texts[1..], "\n"), AccountsTokens(accounts[1..]));
      } else {
        assert accounts[1..] == [];
      }
    }
  }

  lemma BlockHeadPiece()
    ensures Piece("accounts {\n", [Word("accounts"), LBrace])
  {
    HeadPiece("accounts");
    assert "accounts" + " {\n" == "accounts {\n";
  }

  lemma BlockTailPiece()
    ensures Piece("\n}\n", [RBrace])
  {
    MarkPiece("\n", '}', "\n");
    assert "\n" + ['}'] + "\n" == "\n}\n";
  }

  lemma BlockPiece(accounts: seq<Account>)
    requires forall i :: 0 <= i < |accounts| ==> IsBare(accounts[i].name)
    ensures Piece(PrintBlock(accounts), [Word("accounts"), LBrace] + AccountsTokens(accounts) + [RBrace])
  {
    BlockHeadPiece();
    AccountsPiece(accounts);
    BlockTailPiece();
    Glue3("accounts {\n", [Word("accounts"), LBrace], Join(PadEach(PrintAccounts(accounts), "  "), "\n"),
          AccountsTokens(accounts), "\n}\n", [RBrace]);
  }

  // ------------------------------------------------------------------------------------------
  // Reading the tokens back.

  lemma FirstItemRead(v: string, more: seq<Token>, values: seq<string>, rest: seq<Token>)
    requires ReadItems(more) == Some((values, rest))
    ensures ReadItems([Text(v)] + ([Comma] + more)) == Some(([v] + values, rest))
  {
    var t := [Text(v)] + ([Comma] + more);
    assert t[1..] == [Comma] + more && t[1..][1..] == more;
  }

  lemma LastItemRead(v: string, rest: seq<Token>)
    ensures ReadItems([Text(v)] + ([RBrack] + rest)) == Some(([v], rest))
  {
    var t := [Text(v)] + ([RBrack] + rest);
    assert t[1..] == [RBrack] + rest && t[1..][1..] == rest;
  }

  lemma {:induction false} ItemsRead(values: seq<string>, rest: seq<Token>)
    requires values != []
    ensures ReadItems(ItemTokens(values) + [RBrack] + rest) == Some((values, rest))
    decreases |values|
  {
    var t := ItemTokens(values) + [RBrack] + rest;
    assert [values[0]] + values[1..] == values;
    if |values| == 1 {
      assert values == [values[0]];
      assert t == [Text(values[0])] + ([RBrack] + rest);
      LastItemRead(values[0], rest);
    } else {
      var more := ItemTokens(values[1..]) + [RBrack] + rest;
      assert [Text(values[0]), Comma] == [Text(values[0])] + [Comma];
      assert t == [Text(values[0])] + ([Comma] + more);
      ItemsRead(values[1..], rest);
      FirstItemRead(values[0], more, values[1..], rest);
    }
  }

  lemma ListRead(values: seq<string>, rest: seq<Token>)
    ensures ReadList(ListTokens(values) + rest) == Some((values, rest))
  {
    var t := ListTokens(values) + rest;
    assert t[1..] == ItemTokens(values) + [RBrack] + rest;
    if values == [] {
      assert t[1..][1..] == rest;
    } else {
      assert t[1..][0] == Text(values[0]);
      ItemsRead(values, rest);
    }
  }

  lemma FieldRead(name: string, rest: seq<Token>)
    ensures EatField([Word(name), Colon] + rest, name) == Some(rest)
  {
    var t := [Word(name), Colon] + rest;
    assert t[1..] == [Colon] + rest && t[1..][1..] == rest;
  }

  lemma EatRead(token: Token, rest: seq<Token>)
    ensures Eat([token] + rest, token) == Some(rest)
  {
    assert ([token] + rest)[1..] == rest;
  }

  lemma TextRead(s: string, rest: seq<Token>)
    ensures EatText([Text(s)] + rest) == Some((s, rest))
  {
    assert ([Text(s)] + rest)[1..] == rest;
  }

  lemma PermissionsNested(p: Permissions, rest: seq<Token>)
    ensures PermissionTokens(p) + rest ==
            [Word("permissions"), Colon] + ([LBrace] + ([Word("publish"), Colon] + (ListTokens(p.publish)
            + ([Word("subscribe"), Colon] + (ListTokens(p.subscribe) + ([RBrace] + rest))))))
  {
  }

  lemma PermissionsRead(p: Permissions, rest: seq<Token>)
    ensures ReadPermissions(PermissionTokens(p) + rest) == Some((p, rest))
  {
    var r6 := [RBrace] + rest;
    var r5 := ListTokens(p.subscribe) + r6;
    var r4 := [Word("subscribe"), Colon] + r5;
    var r3 := ListTokens(p.publish) + r4;
    var r2 := [Word("publish"), Colon] + r3;
    var r1 := [LBrace] + r2;
    PermissionsNested(p, rest);
    FieldRead("permissions", r1);
    EatRead(LBrace, r2);
    FieldRead("publish", r3);
    ListRead(p.publish, r4);
    FieldRead("subscribe", r5);
    ListRead(p.subscribe, r6);
    EatRead(RBrace, rest);
  }

  lemma UserNested(u: User, rest: seq<Token>)
    ensures var extra := if u.permissions.Some? then PermissionTokens(u.permissions.value) else [];
            UserTokens(u) + rest ==
            [LBrace] + ([Word("user"), Colon] + ([Text(u.name)] + ([Word("password"), Colon] + ([Text(u.password)]
            + (extra + ([RBrace] + rest))))))
  {
    var extra := if u.permissions.Some? then PermissionTokens(u.permissions.value) else [];
    assert [Word("user"), Colon, Text(u.name)] == [Word("user"), Colon] + [Text(u.name)];
    assert [Word("password"), Colon, Text(u.password)] == [Word("password"), Colon] + [Text(u.password)];
    RegroupUser([LBrace], [Word("user"), Colon], [Text(u.name)], [Word("password"), Colon], [Text(u.password)], extra,
                [RBrace], rest);
  }

  lemma RegroupUser(a: seq<Token>, b: seq<Token>, c: seq<Token>, d: seq<Token>, e: seq<Token>, f: seq<Token>,
                    g: seq<Token>, h: seq<Token>)
    ensures a + (b + c) + (d + e) + f + g + h == a + (b + (c + (d + (e + (f + (g + h))))))
  {
  }

  lemma UserRead(u: User, rest: seq<Token>)
    ensures ReadUser(UserTokens(u) + rest) == Some((u, rest))
  {
    var end := [RBrace] + rest;
    var r5 := (if u.permissions.Some? then PermissionTokens(u.permissions.value) else []) + end;
    var r4 := [Text(u.password)] + r5;
    var r3 := [Word("password"), Colon] + r4;
    var r2 := [Text(u.name)] + r3;
    var r1 := [Word("user"), Colon] + r2;
    UserNested(u, rest);
    EatRead(LBrace, r1);
    FieldRead("user", r2);
    TextRead(u.name, r3);
    FieldRead("password", r4);
    TextRead(u.password, r5);
    if u.permissions.Some? {
      assert r5[0] == Word("permissions");
      PermissionsRead(u.permissions.value, end);
      EatRead(RBrace, rest);
    } else {
      assert r5 == end && end[1..] == rest;
    }
  }

  lemma LastUserRead(t: seq<Token>, u: User, rest: seq<Token>)
    requires ReadUser(t) == Some((u, [RBrack] + rest))
    ensures ReadUsers(t) == Some(([u], rest))
  {
    EatRead(RBrack, rest);
  }

  lemma FirstUserRead(t: seq<Token>, u: User, more: seq<Token>, users: seq<User>, rest: seq<Token>)
    requires ReadUser(t) == Some((u, [Comma] + more)) && |more| < |t| && ReadUsers(more) == Some((users, rest))
    ensures ReadUsers(t) == Some(([u] + users, rest))
  {
    assert ([Comma] + more)[1..] == more;
  }

  lemma {:induction false} UsersRead(users: seq<User>, rest: seq<Token>)
    requires users != []
    ensures ReadUsers(UsersTokens(users) + [RBrack] + rest) == Some((users, rest))
    decreases |users|
  {
    var t := UsersTokens(users) + [RBrack] + rest;
    if |users| == 1 {
      assert t == UserTokens(users[0]) + ([RBrack] + rest);
      UserRead(users[0], [RBrack] + rest);
      LastUserRead(t, users[0], rest);
      assert [users[0]] == users;
    } else {
      var more := UsersTokens(users[1..]) + [RBrack] + rest;
      UsersNested(users, rest);
      UserRead(users[0], [Comma] + more);
      UsersRead(users[1..], rest);
      FirstUserRead(t, users[0], more, users[1..], rest);
      assert [users[0]] + users[1..] == users;
    }
  }

  lemma UsersNested(users: seq<User>, rest: seq<Token>)
    requires |users| > 1
    ensures UsersTokens(users) + [RBrack] + rest ==
            UserTokens(users[0]) + ([Comma] + (UsersTokens(users[1..]) + [RBrack] + rest))
  {
    Regroup(UserTokens(users[0]), [Comma], UsersTokens(users[1..]), [RBrack], rest);
  }

  lemma Regroup(a: seq<Token>, b: seq<Token>, c: seq<Token>, d: seq<Token>, e: seq<Token>)
    ensures a + b + c + d + e == a + (b + (c + d + e))
  {
  }

  lemma AccountNested(a: Account, rest: seq<Token>)
    ensures AccountTokens(a) + rest ==
            [Word(a.name)] + ([LBrace] + ([Word("users"), Colon]
            + ([LBrack] + (UsersTokens(a.users) + [RBrack] + ([RBrace] + rest)))))
  {
    assert [Word(a.name), LBrace] == [Word(a.name)] + [LBrace];
    assert [Word("users"), Colon, LBrack] == [Word("users"), Colon] + [LBrack];
  }

  lemma AccountRead(a: Account, rest: seq<Token>)
    requires a.users != []
    ensures ReadAccount(AccountTokens(a) + rest) == Some((a, rest))
  {
    var r4 := [RBrace] + rest;
    var r3 := UsersTokens(a.users) + [RBrack] + r4;
    var r2 := [LBrack] + r3;
    var r1 := [Word("users"), Colon] + r2;
    var r0 := [LBrace] + r1;
    AccountNested(a, rest);
    assert ([Word(a.name)] + r0)[1..] == r0;
    EatRead(LBrace, r1);
    FieldRead("users", r2);
    EatRead(LBrack, r3);
    UsersRead(a.users, r4);
    EatRead(RBrace, rest);
  }

  lemma {:induction false} AccountsRead(accounts: seq<Account>)
    requires forall i :: 0 <= i < |accounts| ==> accounts[i].users != []
    ensures ReadAccounts(AccountsTokens(accounts) + [RBrace]) == Some(accounts)
    decreases |accounts|
  {
    if accounts == [] {
      assert [] + [RBrace] == [RBrace];
    } else {
      var more := AccountsTokens(accounts[1..]) + [RBrace];
      var t := AccountsTokens(accounts) + [RBrace];
      assert t == AccountTokens(accounts[0]) + more;
      AccountRead(accounts[0], more);
      AccountsRead(accounts[1..]);
      assert t[0].Word? && [accounts[0]] + accounts[1..] == accounts;
    }
  }

  // ------------------------------------------------------------------------------------------
  // The round trip.

  lemma BlockRoundTrip(accounts: seq<Account>)
    requires forall i :: 0 <= i < |accounts| ==> IsBare(accounts[i].name) && accounts[i].users != []
    ensures ParseBlock(PrintBlock(accounts)) == Some(accounts)
  {
    BlockPiece(accounts);
    AccountsRead(accounts);
    var body := AccountsTokens(accounts) + [RBrace];
    assert [Word("accounts"), LBrace] + AccountsTokens(accounts) + [RBrace] == [Word("accounts"), LBrace] + body;
    HeadRead(PrintBlock(accounts), body);
  }

  lemma HeadRead(text: string, body: seq<Token>)
    requires Lex(text) == Some([Word("accounts"), LBrace] + body)
    ensures ParseBlock(text) == ReadAccounts(body)
  {
    assert [Word("accounts"), LBrace] + body == [Word("accounts")] + ([LBrace] + body);
    EatRead(Word("accounts"), [LBrace] + body);
    EatRead(LBrace, body);
  }

  /** Account names read from any text are bare words. */
  lemma {:induction false} ReadNamesBare(t: seq<Token>)
    requires ReadAccounts(t).Some? && forall i :: 0 <= i < |t| && t[i].Word? ==> IsBare(t[i].w)
    ensures forall i :: 0 <= i < |ReadAccounts(t).value| ==> IsBare(ReadAccounts(t).value[i].name)
    decreases |t|
  {
    if t != [RBrace] {
      var t1 := ReadAccount(t).value.1;
      ReadAccountSuffix(t);
      ReadNamesBare(t1);
    }
  }

  /** `b` is what is left of `a`. */
  predicate Suffix(b: seq<Token>, a: seq<Token>) {
    |b| <= |a| && b == a[|a| - |b|..]
  }

  lemma {:induction false} ReadItemsSuffix(t: seq<Token>)
    requires ReadItems(t).Some?
    ensures Suffix(ReadItems(t).value.1, t)
    decreases |t|
  {
    if t[1..] != [] && t[1..][0] == Comma {
      ReadItemsSuffix(t[1..][1..]);
    }
  }

  lemma ReadListSuffix(t: seq<Token>)
    requires ReadList(t).Some?
    ensures Suffix(ReadList(t).value.1, t)
  {
    if !(t[1..] != [] && t[1..][0] == RBrack) {
      ReadItemsSuffix(t[1..]);
    }
  }

  lemma SuffixTransitive(c: seq<Token>, b: seq<Token>, a: seq<Token>)
    requires Suffix(c, b) && Suffix(b, a)
    ensures Suffix(c, a)
  {
  }

  lemma FieldSuffix(t: seq<Token>, name: string)
    requires EatField(t, name).Some?
    ensures Suffix(EatField(t, name).value, t)
  {
  }

  lemma ReadPermissionsSuffix(t: seq<Token>)
    requires ReadPermissions(t).Some?
    ensures Suffix(ReadPermissions(t).value.1, t)
  {
    var t1 := EatField(t, "permissions").value;
    var t2 := t1[1..];
    var t3 := EatField(t2, "publish").value;
    var t4 := ReadList(t3).value.1;
    var t5 := EatField(t4, "subscribe").value;
    var t6 := ReadList(t5).value.1;
    FieldSuffix(t, "permissions");
    SuffixTransitive(t2, t1, t);
    FieldSuffix(t2, "publish");
    SuffixTransitive(t3, t2, t);
    ReadListSuffix(t3);
    SuffixTransitive(t4, t3, t);
    FieldSuffix(t4, "subscribe");
    SuffixTransitive(t5, t4, t);
    ReadListSuffix(t5);
    SuffixTransitive(t6, t5, t);
    SuffixTransitive(t6[1..], t6, t);
  }

  /** What is left after the name and the password of a user. */
  function AfterPassword(t: seq<Token>): seq<Token>
    requires ReadUser(t).Some?
  {
    EatField(EatField(t[1..], "user").value[1..], "password").value[1..]
  }

  lemma AfterPasswordSuffix(t: seq<Token>)
    requires ReadUser(t).Some?
    ensures Suffix(AfterPassword(t), t)
  {
    var t1 := t[1..];
    var t2 := EatField(t1, "user").value;
    var t3 := t2[1..];
    var t4 := EatField(t3, "password").value;
    FieldSuffix(t1, "user");
    SuffixTransitive(t2, t1, t);
    SuffixTransitive(t3, t2, t);
    FieldSuffix(t3, "password");
    SuffixTransitive(t4, t3, t);
    SuffixTransitive(t4[1..], t4, t);
  }

  lemma ReadUserSuffix(t: seq<Token>)
    requires ReadUser(t).Some?
    ensures Suffix(ReadUser(t).value.1, t)
  {
    var t5 := AfterPassword(t);
    AfterPasswordSuffix(t);
    if t5 != [] && t5[0] == RBrace {
      SuffixTransitive(t5[1..], t5, t);
    } else {
      var t6 := ReadPermissions(t5).value.1;
      ReadPermissionsSuffix(t5);
      SuffixTransitive(t6, t5, t);
      SuffixTransitive(t6[1..], t6, t);
    }
  }

  lemma {:induction false} ReadUsersSuffix(t: seq<Token>)
    requires ReadUsers(t).Some?
    ensures Suffix(ReadUsers(t).value.1, t)
    decreases |t|
  {
    ReadUserSuffix(t);
    var t1 := ReadUser(t).value.1;
    if t1 != [] && t1[0] == Comma && |t1| <= |t| {
      ReadUsersSuffix(t1[1..]);
      SuffixTransitive(t1[1..], t1, t);
      SuffixTransitive(ReadUsers(t1[1..]).value.1, t1[1..], t);
    } else {
      SuffixTransitive(t1[1..], t1, t);
    }
  }

  lemma ReadAccountSuffix(t: seq<Token>)
    requires ReadAccount(t).Some?
    ensures Suffix(ReadAccount(t).value.1, t)
  {
    var t2 := EatField(t[1..][1..], "users").value;
    var t3 := t2[1..];
    ReadUsersSuffix(t3);
    var t4 := ReadUsers(t3).value.1;
    SuffixTransitive(t3, t2, t);
    SuffixTransitive(t4, t3, t);
    SuffixTransitive(t4[1..], t4, t);
  }

  /**
   The printed block reads back as exactly the accounts it was printed from if and only if every
   account name is a bare word; user names, passwords and subjects may be any text whatsoever.
   */
  lemma BlockRoundTripIff(accounts: seq<Account>)
    requires forall i :: 0 <= i < |accounts| ==> accounts[i].users != []
    ensures ParseBlock(PrintBlock(accounts)) == Some(accounts)
            <==> forall i :: 0 <= i < |accounts| ==> IsBare(accounts[i].name)
  {
    if forall i :: 0 <= i < |accounts| ==> IsBare(accounts[i].name) {
      BlockRoundTrip(accounts);
    } else if ParseBlock(PrintBlock(accounts)).Some? {
      var t := Lex(PrintBlock(accounts)).value;
      WordsAreBare(PrintBlock(accounts));
      var t2 := t[1..][1..];
      forall i | 0 <= i < |t2| && t2[i].Word? ensures IsBare(t2[i].w) {
        assert t2[i] == t[i + 2];
      }
      ReadNamesBare(t2);
    }
  }
}
