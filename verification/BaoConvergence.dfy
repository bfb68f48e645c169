/**
 The OpenBao baseline: check-then-create reconciliation against a server, one command at a time,
 with a crash possible between any two commands. A command the server refuses ends the run.
 */
module BaoConvergence {
  import opened Prelude

  /** What the server stores. The root namespace is "" and always exists. */
  datatype Key =
    | Namespace(name: string)
    | AuthMount(ns: string, path: string)
    | SecretMount(ns: string, path: string)
    | Policy(ns: string, name: string)
    | AuthConfig(ns: string, path: string)
    | AuthRole(ns: string, path: string, role: string)

  datatype Value =
    | Present
    | Mounted(kind: string, description: string, maxTtl: Option<string>, version: Option<int>)
    | Document(text: string)

  type Server = map<Key, Value>

  /** The commands of the `bao` program that the script issues. */
  datatype Command =
    | ListNamespaces
    | CreateNamespace(name: string)
    | ListAuth(ns: string)
    | EnableAuth(ns: string, path: string, kind: string, description: string)
    | ListSecrets(ns: string)
    | EnableSecret(ns: string, path: string, kind: string, description: string,
                   maxTtl: Option<string>, version: Option<int>)
    | TuneSecret(ns: string, path: string, ttl: string)
    | WritePolicy(ns: string, name: string, text: string)
    | WriteConfig(ns: string, path: string, text: string)
    | WriteRole(ns: string, path: string, role: string, text: string)

  predicate HasNamespace(s: Server, ns: string) {
    ns == "" || Namespace(ns) in s
  }

  /** The types of auth mount that take the configuration and the roles the script writes. */
  const TAKING: set<string> := {"oidc", "jwt"}

  /** There is an auth mount that takes configuration and roles. */
  predicate TakesDocuments(s: Server, ns: string, path: string) {
    AuthMount(ns, path) in s && s[AuthMount(ns, path)].Mounted? && s[AuthMount(ns, path)].kind in TAKING
  }

  /**
   The server accepts the command: nothing is created twice, nothing is used that does not exist, and auth
   mounts of another type refuse configuration and roles.
   */
  predicate Accepts(s: Server, c: Command) {
    match c
    case ListNamespaces => true
    case CreateNamespace(n) => n != "" && Namespace(n) !in s
    case ListAuth(ns) => HasNamespace(s, ns)
    case EnableAuth(ns, p, _, _) => HasNamespace(s, ns) && AuthMount(ns, p) !in s
    case ListSecrets(ns) => HasNamespace(s, ns)
    case EnableSecret(ns, p, _, _, _, _) => HasNamespace(s, ns) && SecretMount(ns, p) !in s
    case TuneSecret(ns, p, _) => SecretMount(ns, p) in s && s[SecretMount(ns, p)].Mounted?
    case WritePolicy(ns, _, _) => HasNamespace(s, ns)
    case WriteConfig(ns, p, _) => TakesDocuments(s, ns, p)
    case WriteRole(ns, p, _, _) => TakesDocuments(s, ns, p)
  }

  /** The server after a command; one it does not accept changes nothing. */
  function Perform(s: Server, c: Command): Server {
    if !Accepts(s, c) then s
    else
      match c
      case ListNamespaces => s
      case CreateNamespace(n) => s[Namespace(n) := Present]
      case ListAuth(_) => s
      case EnableAuth(ns, p, kind, description) => s[AuthMount(ns, p) := Mounted(kind, description, None, None)]
      case ListSecrets(_) => s
      case EnableSecret(ns, p, kind, description, ttl, version) =>
        s[SecretMount(ns, p) := Mounted(kind, description, ttl, version)]
      case TuneSecret(ns, p, ttl) => s[SecretMount(ns, p) := s[SecretMount(ns, p)].(maxTtl := Some(ttl))]
      case WritePolicy(ns, n, text) => s[Policy(ns, n) := Document(text)]
      case WriteConfig(ns, p, text) => s[AuthConfig(ns, p) := Document(text)]
      case WriteRole(ns, p, role, text) => s[AuthRole(ns, p, role) := Document(text)]
  }

  function PerformAll(s: Server, cs: seq<Command>): Server
    decreases |cs|
  {
    if cs == [] then s else PerformAll(Perform(s, cs[0]), cs[1..])
  }

  // ------------------------------------------------------------------------------------------
  // The script as a list of reconciliation actions.

  datatype Action =
    | EnsureNamespace(name: string)
    | EnsureAuth(ns: string, path: string, kind: string, description: string)
    | EnsureSecret(ns: string, path: string, kind: string, description: string, maxTtl: string, version: Option<int>)
    | PutPolicy(ns: string, name: string, text: string)
    | PutConfig(ns: string, path: string, text: string)
    | PutRole(ns: string, path: string, role: string, text: string)

  /** An empty TTL is no TTL. */
  function Ttl(text: string): Option<string> {
    if text == "" then None else Some(text)
  }

  /** The commands one action issues, given what the listing shows. */
  function Commands(s: Server, a: Action): seq<Command> {
    match a
    case EnsureNamespace(n) => if Namespace(n) in s then [ListNamespaces] else [ListNamespaces, CreateNamespace(n)]
    case EnsureAuth(ns, p, kind, description) =>
      if AuthMount(ns, p) in s then [ListAuth(ns)] else [ListAuth(ns), EnableAuth(ns, p, kind, description)]
    case EnsureSecret(ns, p, kind, description, ttl, version) =>
      if SecretMount(ns, p) !in s then [ListSecrets(ns), EnableSecret(ns, p, kind, description, Ttl(ttl), version)]
      else if ttl != "" then [ListSecrets(ns), TuneSecret(ns, p, ttl)]
      else [ListSecrets(ns)]
    case PutPolicy(ns, n, text) => [WritePolicy(ns, n, text)]
    case PutConfig(ns, p, text) => [WriteConfig(ns, p, text)]
    case PutRole(ns, p, role, text) => [WriteRole(ns, p, role, text)]
  }

  predicate AllAccepted(s: Server, cs: seq<Command>)
    decreases |cs|
  {
    cs == [] || (Accepts(s, cs[0]) && AllAccepted(Perform(s, cs[0]), cs[1..]))
  }

  /** What is issued of a list of commands: up to the first one refused, that one included. */
  function Issue(s: Server, cs: seq<Command>): seq<Command>
    decreases |cs|
  {
    if cs == [] then []
    else [cs[0]] + if Accepts(s, cs[0]) then Issue(Perform(s, cs[0]), cs[1..]) else []
  }

  /** All commands of a run; a refused one is the last. */
  function Trace(s: Server, plan: seq<Action>): seq<Command>
    decreases |plan|
  {
    if plan == [] then []
    else
      var cs := Commands(s, plan[0]);
      Issue(s, cs) + if AllAccepted(s, cs) then Trace(PerformAll(s, cs), plan[1..]) else []
  }

  /** The server after a run. */
  function Run(s: Server, plan: seq<Action>): Server {
    PerformAll(s, Trace(s, plan))
  }

  /** No command of the run is refused. */
  predicate Completes(s: Server, plan: seq<Action>) {
    AllAccepted(s, Trace(s, plan))
  }

  // ------------------------------------------------------------------------------------------
  // Well-formed servers and plans.

  function NamespaceOf(k: Key): string {
    match k
    case Namespace(_) => ""
    case AuthMount(ns, _) => ns
    case SecretMount(ns, _) => ns
    case Policy(ns, _) => ns
    case AuthConfig(ns, _) => ns
    case AuthRole(ns, _, _) => ns
  }

  /** Everything lives in an existing namespace, and mounts are mounts. */
  predicate WellFormed(s: Server) {
    forall k :: k in s ==> HasNamespace(s, NamespaceOf(k)) && (k.SecretMount? || k.AuthMount? ==> s[k].Mounted?)
  }

  /** The namespaces and auth mounts that earlier actions have made sure of. */
  predicate Sound(plan: seq<Action>, namespaces: set<string>, mounts: set<(string, string)>)
    decreases |plan|
  {
    plan == [] ||
    (match plan[0]
     case EnsureNamespace(n) => n != "" && Sound(plan[1..], namespaces + {n}, mounts)
     case EnsureAuth(ns, p, _, _) => (ns == "" || ns in namespaces) && Sound(plan[1..], namespaces, mounts + {(ns, p)})
     case EnsureSecret(ns, _, _, _, _, _) => (ns == "" || ns in namespaces) && Sound(plan[1..], namespaces, mounts)
     case PutPolicy(ns, _, _) => (ns == "" || ns in namespaces) && Sound(plan[1..], namespaces, mounts)
     case PutConfig(ns, p, _) => (ns, p) in mounts && Sound(plan[1..], namespaces, mounts)
     case PutRole(ns, p, _, _) => (ns, p) in mounts && Sound(plan[1..], namespaces, mounts))
  }

  /** The server has what the rest of a sound plan relies on. */
  predicate Provides(s: Server, namespaces: set<string>, mounts: set<(string, string)>) {
    && WellFormed(s)
    && (forall n :: n in namespaces ==> Namespace(n) in s)
    && (forall m :: m in mounts ==> AuthMount(m.0, m.1) in s)
  }

  /** The action writes a configuration or a role to this auth mount. */
  predicate Documents(a: Action, ns: string, path: string) {
    (a.PutConfig? || a.PutRole?) && a.ns == ns && a.path == path
  }

  /** If the first action creates the mount the second one writes to, it creates one that takes the document. */
  predicate Fit(a: Action, b: Action) {
    a.EnsureAuth? && Documents(b, a.ns, a.path) ==> a.kind in TAKING
  }

  predicate TypesFit(plan: seq<Action>) {
    forall i, j :: 0 <= i < |plan| && 0 <= j < |plan| ==> Fit(plan[i], plan[j])
  }

  /** If the action writes to an auth mount that is there, that mount takes the document. */
  predicate Takes(s: Server, a: Action) {
    (a.PutConfig? || a.PutRole?) && AuthMount(a.ns, a.path) in s ==> TakesDocuments(s, a.ns, a.path)
  }

  /** Every auth mount there that is to receive a configuration or a role has a type that takes it. */
  predicate MountsTake(s: Server, plan: seq<Action>) {
    forall i :: 0 <= i < |plan| ==> Takes(s, plan[i])
  }

  /** The number of actions before the first one a mount of the wrong type refuses. */
  function Reached(s: Server, plan: seq<Action>): (j: nat)
    ensures j <= |plan| && (j == |plan| <==> MountsTake(s, plan))
    ensures (forall i :: 0 <= i < j ==> Takes(s, plan[i])) && (j < |plan| ==> !Takes(s, plan[j]))
    decreases |plan|
  {
    if plan == [] || !Takes(s, plan[0]) then 0 else 1 + Reached(s, plan[1..])
  }

  // ------------------------------------------------------------------------------------------
  // Which commands are accepted.

  lemma {:induction false} PerformAppend(s: Server, a: seq<Command>, b: seq<Command>)
    ensures PerformAll(s, a + b) == PerformAll(PerformAll(s, a), b)
    ensures AllAccepted(s, a + b) <==> AllAccepted(s, a) && AllAccepted(PerformAll(s, a), b)
    decreases |a|
  {
    if a == [] {
      assert a + b == b;
    } else {
      assert (a + b)[0] == a[0] && (a + b)[1..] == a[1..] + b;
      PerformAppend(Perform(s, a[0]), a[1..], b);
    }
  }

  lemma TwoCommands(s: Server, c: Command, d: Command)
    ensures PerformAll(s, [c]) == Perform(s, c) && PerformAll(s, [c, d]) == Perform(Perform(s, c), d)
    ensures AllAccepted(s, [c]) <==> Accepts(s, c)
    ensures AllAccepted(s, [c, d]) <==> Accepts(s, c) && Accepts(Perform(s, c), d)
  {
    assert [c][1..] == [] && [c, d][1..] == [d] && [d][1..] == [];
    assert PerformAll(Perform(s, c), [d]) == Perform(Perform(s, c), d);
    assert AllAccepted(Perform(s, c), [d]) <==> Accepts(Perform(s, c), d);
  }

  /** The one key an action touches. */
  function KeyOf(a: Action): Key {
    match a
    case EnsureNamespace(n) => Namespace(n)
    case EnsureAuth(ns, p, _, _) => AuthMount(ns, p)
    case EnsureSecret(ns, p, _, _, _, _) => SecretMount(ns, p)
    case PutPolicy(ns, n, _) => Policy(ns, n)
    case PutConfig(ns, p, _) => AuthConfig(ns, p)
    case PutRole(ns, p, role, _) => AuthRole(ns, p, role)
  }

  /** What it leaves there, given what was there. */
  function Settle(a: Action, before: Option<Value>): Value {
    match a
    case EnsureNamespace(_) => (match before case Some(v) => v case None => Present)
    case EnsureAuth(_, _, kind, description) =>
      (match before case Some(v) => v case None => Mounted(kind, description, None, None))
    case EnsureSecret(_, _, kind, description, ttl, version) =>
      (match before
       case None => Mounted(kind, description, Ttl(ttl), version)
       case Some(v) => if ttl != "" && v.Mounted? then v.(maxTtl := Some(ttl)) else v)
    case PutPolicy(_, _, text) => Document(text)
    case PutConfig(_, _, text) => Document(text)
    case PutRole(_, _, _, text) => Document(text)
  }

  function At(s: Server, k: Key): Option<Value> {
    if k in s then Some(s[k]) else None
  }

  /** What an action needs from the server. */
  predicate Applicable(s: Server, a: Action) {
    match a
    case EnsureNamespace(n) => n != ""
    case EnsureAuth(ns, _, _, _) => HasNamespace(s, ns)
    case EnsureSecret(ns, _, _, _, _, _) => HasNamespace(s, ns)
    case PutPolicy(ns, _, _) => HasNamespace(s, ns)
    case PutConfig(ns, p, _) => TakesDocuments(s, ns, p)
    case PutRole(ns, p, _, _) => TakesDocuments(s, ns, p)
  }

  /** The commands of an action are all accepted and change its key as stated, nothing else. */
  lemma ActionSettles(s: Server, a: Action)
    requires WellFormed(s) && Applicable(s, a)
    ensures AllAccepted(s, Commands(s, a))
    ensures PerformAll(s, Commands(s, a)) == s[KeyOf(a) := Settle(a, At(s, KeyOf(a)))]
  {
    var cs := Commands(s, a);
    if |cs| == 1 {
      assert cs == [cs[0]];
      TwoCommands(s, cs[0], cs[0]);
    } else {
      assert cs == [cs[0], cs[1]];
      TwoCommands(s, cs[0], cs[1]);
    }
  }

  lemma ActionKeepsWellFormed(s: Server, a: Action)
    requires WellFormed(s) && Applicable(s, a)
    ensures WellFormed(s[KeyOf(a) := Settle(a, At(s, KeyOf(a)))])
  {
    var s' := s[KeyOf(a) := Settle(a, At(s, KeyOf(a)))];
    forall k | k in s'
      ensures HasNamespace(s', NamespaceOf(k)) && (k.SecretMount? || k.AuthMount? ==> s'[k].Mounted?)
    {
      if k != KeyOf(a) {
        assert HasNamespace(s, NamespaceOf(k));
      } else if a.PutConfig? || a.PutRole? {
        assert AuthMount(a.ns, a.path) in s && HasNamespace(s, NamespaceOf(AuthMount(a.ns, a.path)));
      }
    }
  }

  /** The effect of a plan, action by action. */
  function Reconcile(s: Server, plan: seq<Action>): Server
    decreases |plan|
  {
    if plan == [] then s else Reconcile(Step(s, plan[0]), plan[1..])
  }

  function MoreNamespaces(a: Action, namespaces: set<string>): set<string> {
    if a.EnsureNamespace? then namespaces + {a.name} else namespaces
  }

  function MoreMounts(a: Action, mounts: set<(string, string)>): set<(string, string)> {
    if a.EnsureAuth? then mounts + {(a.ns, a.path)} else mounts
  }

  /** One action's effect. */
  function Step(s: Server, a: Action): Server {
    s[KeyOf(a) := Settle(a, At(s, KeyOf(a)))]
  }

  lemma {:induction false} IssueAll(s: Server, cs: seq<Command>)
    ensures AllAccepted(s, cs) ==> Issue(s, cs) == cs
    ensures AllAccepted(s, Issue(s, cs)) <==> AllAccepted(s, cs)
    decreases |cs|
  {
    if cs != [] && Accepts(s, cs[0]) {
      IssueAll(Perform(s, cs[0]), cs[1..]);
      assert Issue(s, cs)[1..] == Issue(Perform(s, cs[0]), cs[1..]);
    }
  }

  /** The first action of a sound plan is accepted if no mount of the wrong type refuses it. */
  lemma FirstAccepted(s: Server, plan: seq<Action>, namespaces: set<string>, mounts: set<(string, string)>)
    requires Provides(s, namespaces, mounts) && Sound(plan, namespaces, mounts) && plan != [] && Takes(s, plan[0])
    ensures AllAccepted(s, Commands(s, plan[0])) && PerformAll(s, Commands(s, plan[0])) == Step(s, plan[0])
    ensures Trace(s, plan) == Commands(s, plan[0]) + Trace(Step(s, plan[0]), plan[1..])
    ensures Provides(Step(s, plan[0]), MoreNamespaces(plan[0], namespaces), MoreMounts(plan[0], mounts))
    ensures Sound(plan[1..], MoreNamespaces(plan[0], namespaces), MoreMounts(plan[0], mounts))
  {
    assert Applicable(s, plan[0]);
    IssueAll(s, Commands(s, plan[0]));
    ActionSettles(s, plan[0]);
    ActionKeepsWellFormed(s, plan[0]);
    StepProvides(s, plan[0], namespaces, mounts);
  }

  lemma StepProvides(s: Server, a: Action, namespaces: set<string>, mounts: set<(string, string)>)
    requires Provides(s, namespaces, mounts) && WellFormed(Step(s, a))
    ensures Provides(Step(s, a), MoreNamespaces(a, namespaces), MoreMounts(a, mounts))
  {
  }

  /** If one does refuse it, the run ends there, with the one write that was refused. */
  lemma FirstRefused(s: Server, plan: seq<Action>)
    requires plan != [] && !Takes(s, plan[0])
    ensures Trace(s, plan) == Commands(s, plan[0]) && |Commands(s, plan[0])| == 1
    ensures Run(s, plan) == s && !Completes(s, plan) && !Creates(Commands(s, plan[0])[0])
  {
    var cs := Commands(s, plan[0]);
    assert cs == [cs[0]] && !Accepts(s, cs[0]);
    TwoCommands(s, cs[0], cs[0]);
    assert Trace(s, plan) == [cs[0]];
  }

  /** An action leaves every mount taking what it took before, if the plan's own mounts fit their documents. */
  lemma {:induction false} ReachedKept(s: Server, a: Action, plan: seq<Action>)
    requires forall i :: 0 <= i < |plan| ==> Fit(a, plan[i])
    ensures Reached(Step(s, a), plan) == Reached(s, plan)
    decreases |plan|
  {
    if plan != [] {
      assert Fit(a, plan[0]);
      assert Takes(Step(s, a), plan[0]) <==> Takes(s, plan[0]);
      ReachedKept(s, a, plan[1..]);
    }
  }

  /** So a reconciled server refuses the same actions. */
  lemma {:induction false} ReachedAfter(s: Server, done: seq<Action>, plan: seq<Action>)
    requires forall i, j :: 0 <= i < |done| && 0 <= j < |plan| ==> Fit(done[i], plan[j])
    ensures Reached(Reconcile(s, done), plan) == Reached(s, plan)
    decreases |done|
  {
    if done != [] {
      forall j | 0 <= j < |plan| ensures Fit(done[0], plan[j]) {}
      ReachedKept(s, done[0], plan);
      forall i, j | 0 <= i < |done[1..]| && 0 <= j < |plan| ensures Fit(done[1..][i], plan[j]) {
        assert done[1..][i] == done[i + 1];
      }
      ReachedAfter(Step(s, done[0]), done[1..], plan);
    }
  }

  lemma TailFits(plan: seq<Action>)
    requires TypesFit(plan) && plan != []
    ensures TypesFit(plan[1..]) && forall i :: 0 <= i < |plan[1..]| ==> Fit(plan[0], plan[1..][i])
  {
    forall i, j | 0 <= i < |plan[1..]| && 0 <= j < |plan[1..]| ensures Fit(plan[1..][i], plan[1..][j]) {
      assert plan[1..][i] == plan[i + 1] && plan[1..][j] == plan[j + 1];
    }
    forall i | 0 <= i < |plan[1..]| ensures Fit(plan[0], plan[1..][i]) {
      assert plan[1..][i] == plan[i + 1];
    }
  }

  lemma RunBeyond(s: Server, plan: seq<Action>)
    requires plan != [] && AllAccepted(s, Commands(s, plan[0]))
    ensures var s1 := PerformAll(s, Commands(s, plan[0]));
            Run(s, plan) == Run(s1, plan[1..]) && (Completes(s, plan) <==> Completes(s1, plan[1..]))
  {
    var cs := Commands(s, plan[0]);
    IssueAll(s, cs);
    PerformAppend(s, cs, Trace(PerformAll(s, cs), plan[1..]));
  }

  /**
   A run over a sound plan has the effect of the actions before the first one that a mount of the wrong type
   refuses; no command is refused if and only if there is no such action.
   */
  lemma {:induction false} RunReconciles(s: Server, plan: seq<Action>, namespaces: set<string>,
                                         mounts: set<(string, string)>)
    requires Provides(s, namespaces, mounts) && Sound(plan, namespaces, mounts) && TypesFit(plan)
    ensures Run(s, plan) == Reconcile(s, plan[..Reached(s, plan)]) && WellFormed(Run(s, plan))
    ensures Completes(s, plan) <==> Reached(s, plan) == |plan|
    ensures Completes(s, plan) <==> MountsTake(s, plan)
    decreases |plan|
  {
    if plan != [] {
      var a := plan[0];
      if Takes(s, a) {
        var s1, j := Step(s, a), Reached(s, plan);
        FirstAccepted(s, plan, namespaces, mounts);
        TailFits(plan);
        ReachedKept(s, a, plan[1..]);
        RunReconciles(s1, plan[1..], MoreNamespaces(a, namespaces), MoreMounts(a, mounts));
        RunBeyond(s, plan);
        ReconcileFront(s, plan, j - 1);
        calc {
          Run(s, plan);
          Run(s1, plan[1..]);
          Reconcile(s1, plan[1..][..j - 1]);
          Reconcile(s, plan[..j]);
        }
      } else {
        FirstRefused(s, plan);
        assert plan[..0] == [];
      }
    }
  }

  // ------------------------------------------------------------------------------------------
  // The effect on one key, and why repeating it is harmless.

  /** What the plan makes of the value at k. */
  function Fold(k: Key, before: Option<Value>, plan: seq<Action>): Option<Value>
    decreases |plan|
  {
    if plan == [] then before
    else Fold(k, if KeyOf(plan[0]) == k then Some(Settle(plan[0], before)) else before, plan[1..])
  }

  lemma {:induction false} ReconcileAt(s: Server, plan: seq<Action>, k: Key)
    ensures At(Reconcile(s, plan), k) == Fold(k, At(s, k), plan)
    decreases |plan|
  {
    if plan != [] {
      ReconcileAt(Step(s, plan[0]), plan[1..], k);
    }
  }

  lemma SameEverywhere(s: Server, t: Server)
    requires forall k :: At(s, k) == At(t, k)
    ensures s == t
  {
    forall k ensures k in s <==> k in t { assert At(s, k) == At(t, k); }
    forall k | k in s ensures s[k] == t[k] { assert At(s, k) == At(t, k); }
  }

  /** Two values that a plan starting at either brings to the same end: equal, or equal up to the TTL. */
  predicate SameButTtl(v: Value, w: Value) {
    v == w || (v.Mounted? && w.Mounted? && v.(maxTtl := w.maxTtl) == w)
  }

  /** The last TTL a plan sets at k, if it sets any. */
  function LastTtl(k: Key, plan: seq<Action>): Option<string>
    decreases |plan|
  {
    if plan == [] then None
    else
      var later := LastTtl(k, plan[1..]);
      if later.Some? then later
      else if KeyOf(plan[0]) == k && plan[0].EnsureSecret? then Ttl(plan[0].maxTtl) else None
  }

  /** The last document a plan writes at k, if it writes any. */
  function LastText(k: Key, plan: seq<Action>): Option<string>
    decreases |plan|
  {
    if plan == [] then None
    else
      var later := LastText(k, plan[1..]);
      if later.Some? then later
      else if KeyOf(plan[0]) == k && (plan[0].PutPolicy? || plan[0].PutConfig? || plan[0].PutRole?)
      then Some(plan[0].text) else None
  }

  /** Once a value is there, a plan only sets the TTL (mounts), replaces the text (documents), or leaves it. */
  lemma {:induction false} FoldFromSome(k: Key, v: Value, plan: seq<Action>)
    ensures Fold(k, Some(v), plan) ==
            if LastText(k, plan).Some? then Some(Document(LastText(k, plan).value))
            else if LastTtl(k, plan).Some? && v.Mounted? then Some(v.(maxTtl := LastTtl(k, plan)))
            else Some(v)
    decreases |plan|
  {
    if plan != [] {
      if KeyOf(plan[0]) == k {
        FoldFromSome(k, Settle(plan[0], Some(v)), plan[1..]);
        NoTextForMounts(k, plan[1..]);
      } else {
        FoldFromSome(k, v, plan[1..]);
      }
    }
  }

  lemma {:induction false} NoTextForMounts(k: Key, plan: seq<Action>)
    ensures k.SecretMount? || k.AuthMount? || k.Namespace? ==> LastText(k, plan).None?
    ensures !k.SecretMount? ==> LastTtl(k, plan).None?
    decreases |plan|
  {
    if plan != [] { NoTextForMounts(k, plan[1..]); }
  }

  /** The value a plan leaves is one it leaves alone. */
  lemma {:induction false} FoldIdempotent(k: Key, before: Option<Value>, plan: seq<Action>)
    ensures Fold(k, Fold(k, before, plan), plan) == Fold(k, before, plan)
    decreases |plan|
  {
    NoTextForMounts(k, plan);
    match before
    case Some(v) =>
      FoldFromSome(k, v, plan);
      FoldFromSome(k, Fold(k, before, plan).value, plan);
    case None =>
      FoldFromNone(k, plan);
      if Fold(k, None, plan).Some? {
        FoldFromSome(k, Fold(k, None, plan).value, plan);
      }
  }

  /** Starting from nothing, the TTL and the text at the end are the last ones the plan sets. */
  lemma {:induction false} FoldFromNone(k: Key, plan: seq<Action>)
    ensures Fold(k, None, plan).Some? ==>
              && (LastText(k, plan).Some? ==> Fold(k, None, plan) == Some(Document(LastText(k, plan).value)))
              && (LastTtl(k, plan).Some? && Fold(k, None, plan).value.Mounted? ==>
                    Fold(k, None, plan).value.maxTtl == LastTtl(k, plan))
    ensures Fold(k, None, plan).None? ==> LastText(k, plan).None? && LastTtl(k, plan).None?
    decreases |plan|
  {
    if plan != [] {
      NoTextForMounts(k, plan[1..]);
      if KeyOf(plan[0]) == k {
        FoldFromSome(k, Settle(plan[0], None), plan[1..]);
      } else {
        FoldFromNone(k, plan[1..]);
      }
    }
  }

  lemma {:induction false} FoldAppend(k: Key, before: Option<Value>, a: seq<Action>, b: seq<Action>)
    ensures Fold(k, before, a + b) == Fold(k, Fold(k, before, a), b)
    decreases |a|
  {
    if a == [] {
      assert a + b == b;
    } else {
      assert (a + b)[0] == a[0] && (a + b)[1..] == a[1..] + b;
      FoldAppend(k, if KeyOf(a[0]) == k then Some(Settle(a[0], before)) else before, a[1..], b);
    }
  }

  /** Doing the first n actions of a plan and then the whole plan is doing the plan. */
  lemma PrefixAbsorbed(s: Server, plan: seq<Action>, n: nat)
    requires n <= |plan|
    ensures Reconcile(Reconcile(s, plan[..n]), plan) == Reconcile(s, plan)
  {
    var a, b := plan[..n], plan[n..];
    assert plan == a + b;
    var t := Reconcile(s, a);
    forall k ensures At(Reconcile(t, plan), k) == At(Reconcile(s, plan), k) {
      ReconcileAt(s, a, k);
      ReconcileAt(t, plan, k);
      ReconcileAt(s, plan, k);
      FoldAppend(k, At(t, k), a, b);
      FoldAppend(k, At(s, k), a, b);
      FoldIdempotent(k, At(s, k), a);
    }
    SameEverywhere(Reconcile(t, plan), Reconcile(s, plan));
  }

  // ------------------------------------------------------------------------------------------
  // Crashes.

  /** The server when a run dies after its first n commands. */
  function Crashed(s: Server, plan: seq<Action>, n: nat): Server
    requires n <= |Trace(s, plan)|
  {
    PerformAll(s, Trace(s, plan)[..n])
  }

  /** Inside an action only its listing can have happened, and that changes nothing. */
  lemma CrashInside(s: Server, plan: seq<Action>, n: nat)
    requires plan != [] && 0 < n < |Commands(s, plan[0])| && n <= |Trace(s, plan)|
    requires AllAccepted(s, Commands(s, plan[0]))
    ensures Crashed(s, plan, n) == s
  {
    var cs := Commands(s, plan[0]);
    IssueAll(s, cs);
    assert Trace(s, plan)[..n] == [cs[0]];
    TwoCommands(s, cs[0], cs[0]);
  }

  lemma CrashBeyond(s: Server, plan: seq<Action>, n: nat)
    requires plan != [] && AllAccepted(s, Commands(s, plan[0]))
    requires |Commands(s, plan[0])| <= n <= |Trace(s, plan)|
    ensures var cs := Commands(s, plan[0]);
            n - |cs| <= |Trace(PerformAll(s, cs), plan[1..])|
            && Crashed(s, plan, n) == Crashed(PerformAll(s, cs), plan[1..], n - |cs|)
  {
    var cs := Commands(s, plan[0]);
    var rest := Trace(PerformAll(s, cs), plan[1..]);
    IssueAll(s, cs);
    PrefixBeyond(cs, rest, n);
    PerformAppend(s, cs, rest[..n - |cs|]);
  }

  lemma PrefixBeyond(a: seq<Command>, b: seq<Command>, n: nat)
    requires |a| <= n <= |a| + |b|
    ensures (a + b)[..n] == a + b[..n - |a|]
  {
  }

  lemma ReconcileFront(s: Server, plan: seq<Action>, k: nat)
    requires k < |plan|
    ensures Reconcile(s, plan[..k + 1]) == Reconcile(Step(s, plan[0]), plan[1..][..k])
  {
    assert plan[..k + 1][0] == plan[0] && plan[..k + 1][1..] == plan[1..][..k];
  }

  lemma NoCrashYet(s: Server, plan: seq<Action>)
    ensures Crashed(s, plan, 0) == s && Reconcile(s, plan[..0]) == s
  {
  }

  /**
   A listing changes nothing, so a crash always leaves the effect of a number of whole actions that the run
   reaches.
   */
  lemma {:induction false} CrashIsPrefix(s: Server, plan: seq<Action>, n: nat, namespaces: set<string>,
                                         mounts: set<(string, string)>)
      returns (m: nat)
    requires Provides(s, namespaces, mounts) && Sound(plan, namespaces, mounts) && TypesFit(plan)
    requires n <= |Trace(s, plan)|
    ensures m <= Reached(s, plan) && Crashed(s, plan, n) == Reconcile(s, plan[..m]) && WellFormed(Crashed(s, plan, n))
    decreases |plan|
  {
    NoCrashYet(s, plan);
    m := 0;
    if n > 0 {
      var a, done := plan[0], |Commands(s, plan[0])|;
      if !Takes(s, a) {
        FirstRefused(s, plan);
        assert Trace(s, plan)[..n] == Trace(s, plan);
      } else if n < done {
        FirstAccepted(s, plan, namespaces, mounts);
        CrashInside(s, plan, n);
      } else {
        FirstAccepted(s, plan, namespaces, mounts);
        CrashBeyond(s, plan, n);
        TailFits(plan);
        ReachedKept(s, a, plan[1..]);
        var s1 := Step(s, a);
        var k := CrashIsPrefix(s1, plan[1..], n - done, MoreNamespaces(a, namespaces), MoreMounts(a, mounts));
        m := k + 1;
        ReconcileFront(s, plan, k);
        calc {
          Crashed(s, plan, n);
          Crashed(s1, plan[1..], n - done);
          Reconcile(s1, plan[1..][..k]);
          Reconcile(s, plan[..m]);
        }
      }
    }
  }

  /**
   A server after the first m actions a run reaches: the same run reaches as far again, and ends in the same
   state.
   */
  lemma RunFromPrefix(s: Server, plan: seq<Action>, m: nat)
    requires WellFormed(s) && Sound(plan, {}, {}) && TypesFit(plan) && m <= Reached(s, plan)
    requires WellFormed(Reconcile(s, plan[..m]))
    ensures var t := Reconcile(s, plan[..m]);
            && Reached(t, plan) == Reached(s, plan) && Run(t, plan) == Run(s, plan)
            && (Completes(t, plan) <==> Completes(s, plan))
  {
    var t, j := Reconcile(s, plan[..m]), Reached(s, plan);
    ReachedAfter(s, plan[..m], plan);
    RunReconciles(s, plan, {}, {});
    RunReconciles(t, plan, {}, {});
    assert plan[..j][..m] == plan[..m];
    PrefixAbsorbed(s, plan[..j], m);
  }

  /** The server after runs that died after the given numbers of commands, one after the other. */
  predicate DiesAt(s: Server, plan: seq<Action>, deaths: seq<nat>, e: Server)
    decreases |deaths|
  {
    if deaths == [] then s == e
    else deaths[0] <= |Trace(s, plan)| && DiesAt(Crashed(s, plan, deaths[0]), plan, deaths[1..], e)
  }

  /**
   Whatever number of runs died, each at any command, the next run ends where an undisturbed one does, refused
   or not; it is refused nothing if and only if the auth mounts found at the very start take their documents.
   */
  lemma {:induction false} ConvergesAfterCrashes(s: Server, plan: seq<Action>, deaths: seq<nat>, e: Server)
    requires WellFormed(s) && Sound(plan, {}, {}) && TypesFit(plan) && DiesAt(s, plan, deaths, e)
    ensures WellFormed(e) && Run(e, plan) == Run(s, plan)
    ensures Completes(e, plan) <==> MountsTake(s, plan)
    decreases |deaths|
  {
    RunReconciles(s, plan, {}, {});
    if deaths != [] {
      var t := Crashed(s, plan, deaths[0]);
      var m := CrashIsPrefix(s, plan, deaths[0], {}, {});
      RunFromPrefix(s, plan, m);
      RunReconciles(t, plan, {}, {});
      ConvergesAfterCrashes(t, plan, deaths[1..], e);
    }
  }

  /** A further run changes nothing and creates nothing; it is refused what the first one was. */
  lemma SecondRunChangesNothing(s: Server, plan: seq<Action>)
    requires WellFormed(s) && Sound(plan, {}, {}) && TypesFit(plan)
    ensures var t := Run(s, plan);
            && Run(t, plan) == t
            && (Completes(t, plan) <==> MountsTake(s, plan))
            && NoneCreates(Trace(t, plan))
  {
    var j := Reached(s, plan);
    RunReconciles(s, plan, {}, {});
    RunFromPrefix(s, plan, j);
    var t := Run(s, plan);
    forall i | 0 <= i < j ensures KeyOf(plan[i]) in t {
      assert plan[..j][i] == plan[i];
      ReconcileHasKey(s, plan[..j], i);
    }
    NothingToCreate(t, plan, {}, {});
  }

  predicate Creates(c: Command) {
    c.CreateNamespace? || c.EnableAuth? || c.EnableSecret?
  }

  lemma {:induction false} ReconcileHasKey(s: Server, plan: seq<Action>, i: nat)
    requires i < |plan|
    ensures KeyOf(plan[i]) in Reconcile(s, plan)
    decreases |plan|
  {
    if i == 0 {
      ReconcileGrows(Step(s, plan[0]), plan[1..], KeyOf(plan[0]));
    } else {
      ReconcileHasKey(Step(s, plan[0]), plan[1..], i - 1);
    }
  }

  lemma {:induction false} ReconcileGrows(s: Server, plan: seq<Action>, k: Key)
    requires k in s
    ensures k in Reconcile(s, plan)
    decreases |plan|
  {
    if plan != [] {
      ReconcileGrows(Step(s, plan[0]), plan[1..], k);
    }
  }

  predicate NoneCreates(cs: seq<Command>) {
    forall i :: 0 <= i < |cs| ==> !Creates(cs[i])
  }

  lemma NoneCreatesAppend(a: seq<Command>, b: seq<Command>)
    requires NoneCreates(a) && NoneCreates(b)
    ensures NoneCreates(a + b)
  {
  }

  lemma {:induction false} NothingToCreate(s: Server, plan: seq<Action>, namespaces: set<string>,
                                           mounts: set<(string, string)>)
    requires Provides(s, namespaces, mounts) && Sound(plan, namespaces, mounts) && TypesFit(plan)
    requires forall i :: 0 <= i < Reached(s, plan) ==> KeyOf(plan[i]) in s
    ensures NoneCreates(Trace(s, plan))
    decreases |plan|
  {
    if plan != [] {
      var a := plan[0];
      if !Takes(s, a) {
        FirstRefused(s, plan);
      } else {
        FirstAccepted(s, plan, namespaces, mounts);
        TailFits(plan);
        ReachedKept(s, a, plan[1..]);
        assert KeyOf(a) in s;
        assert NoneCreates(Commands(s, a));
        forall i | 0 <= i < Reached(Step(s, a), plan[1..]) ensures KeyOf(plan[1..][i]) in Step(s, a) {
          assert KeyOf(plan[i + 1]) in s;
        }
        NothingToCreate(Step(s, a), plan[1..], MoreNamespaces(a, namespaces), MoreMounts(a, mounts));
        NoneCreatesAppend(Commands(s, a), Trace(Step(s, a), plan[1..]));
      }
    }
  }

  /** The command creates only what is not there. */
  predicate CreatesAbsent(s: Server, c: Command) {
    match c
    case CreateNamespace(name) => Namespace(name) !in s
    case EnableAuth(ns, path, _, _) => AuthMount(ns, path) !in s
    case EnableSecret(ns, path, _, _, _, _) => SecretMount(ns, path) !in s
    case _ => true
  }

  /** So does every command of the list, at its turn. */
  predicate Careful(s: Server, cs: seq<Command>)
    decreases |cs|
  {
    cs == [] || (CreatesAbsent(s, cs[0]) && Careful(Perform(s, cs[0]), cs[1..]))
  }

  lemma {:induction false} CarefulAppend(s: Server, a: seq<Command>, b: seq<Command>)
    requires Careful(s, a) && Careful(PerformAll(s, a), b)
    ensures Careful(s, a + b)
    decreases |a|
  {
    if a == [] {
      assert a + b == b;
    } else {
      assert (a + b)[0] == a[0] && (a + b)[1..] == a[1..] + b;
      CarefulAppend(Perform(s, a[0]), a[1..], b);
    }
  }

  lemma ActionCareful(s: Server, a: Action)
    ensures Careful(s, Issue(s, Commands(s, a)))
  {
    var cs := Commands(s, a);
    if |cs| == 1 {
      assert cs == [cs[0]] && Issue(s, cs) == [cs[0]] && [cs[0]][1..] == [];
    } else {
      assert cs == [cs[0], cs[1]] && Perform(s, cs[0]) == s && cs[1..] == [cs[1]];
      assert Issue(s, [cs[1]]) == [cs[1]] && [cs[1]][1..] == [];
      if Accepts(s, cs[0]) {
        assert Issue(s, cs) == [cs[0]] + [cs[1]] && ([cs[0]] + [cs[1]])[1..] == [cs[1]];
      } else {
        assert Issue(s, cs) == [cs[0]] && [cs[0]][1..] == [];
      }
    }
  }

  /** On any server, for any plan, no namespace or mount is ever asked for that is there already. */
  lemma {:induction false} RunsAreCareful(s: Server, plan: seq<Action>)
    ensures Careful(s, Trace(s, plan))
    decreases |plan|
  {
    if plan != [] {
      var cs := Commands(s, plan[0]);
      ActionCareful(s, plan[0]);
      IssueAll(s, cs);
      if AllAccepted(s, cs) {
        RunsAreCareful(PerformAll(s, cs), plan[1..]);
        CarefulAppend(s, cs, Trace(PerformAll(s, cs), plan[1..]));
      } else {
        assert Trace(s, plan) == Issue(s, cs) + [] == Issue(s, cs);
      }
    }
  }

  // ------------------------------------------------------------------------------------------
  // What the run converges to.

  /**
   For every action the run reaches: documents and TTLs end as the plan last stated them up to where the run
   ends. A mount that was there before keeps its type, description and version: reconciliation never repairs those.
   */
  lemma ConvergesTo(s: Server, plan: seq<Action>, i: nat)
    requires WellFormed(s) && Sound(plan, {}, {}) && TypesFit(plan) && i < Reached(s, plan)
    ensures var k, t, done := KeyOf(plan[i]), Run(s, plan), plan[..Reached(s, plan)];
            && k in t
            && (LastText(k, done).Some? ==> t[k] == Document(LastText(k, done).value))
            && (k.SecretMount? && LastTtl(k, done).Some? ==> t[k].Mounted? && t[k].maxTtl == LastTtl(k, done))
            && (k in s && (k.SecretMount? || k.AuthMount? || k.Namespace?) ==> SameButTtl(t[k], s[k]))
  {
    var done := plan[..Reached(s, plan)];
    var k := KeyOf(done[i]);
    RunReconciles(s, plan, {}, {});
    ReconcileHasKey(s, done, i);
    ReconcileAt(s, done, k);
    NoTextForMounts(k, done);
    if k in s {
      FoldFromSome(k, s[k], done);
    } else {
      FoldFromNone(k, done);
    }
  }

  /** Every action on k declares the same type. */
  predicate DeclaresKind(plan: seq<Action>, k: Key, kind: string) {
    forall i :: 0 <= i < |plan| && KeyOf(plan[i]) == k ==>
                  (plan[i].EnsureAuth? || plan[i].EnsureSecret?) && plan[i].kind == kind
  }

  lemma {:induction false} FoldKind(k: Key, plan: seq<Action>, kind: string)
    requires DeclaresKind(plan, k, kind) && Fold(k, None, plan).Some?
    ensures Fold(k, None, plan).value.Mounted? && Fold(k, None, plan).value.kind == kind
    decreases |plan|
  {
    if KeyOf(plan[0]) == k {
      FoldFromSome(k, Settle(plan[0], None), plan[1..]);
      NoTextForMounts(k, plan[1..]);
    } else {
      assert DeclaresKind(plan[1..], k, kind);
      FoldKind(k, plan[1..], kind);
    }
  }

  /**
   For every mount the run gets to: it ends with its declared type if and only if it was absent before or had
   that type already.
   */
  lemma MountTypeIff(s: Server, plan: seq<Action>, i: nat, kind: string)
    requires WellFormed(s) && Sound(plan, {}, {}) && TypesFit(plan) && i < Reached(s, plan)
    requires DeclaresKind(plan, KeyOf(plan[i]), kind)
    ensures var k := KeyOf(plan[i]);
            && k in Run(s, plan) && Run(s, plan)[k].Mounted?
            && (Run(s, plan)[k].kind == kind <==> k !in s || s[k].kind == kind)
  {
    var k, done := KeyOf(plan[i]), plan[..Reached(s, plan)];
    assert k.AuthMount? || k.SecretMount?;
    ConvergesTo(s, plan, i);
    if k !in s {
      RunReconciles(s, plan, {}, {});
      ReconcileAt(s, done, k);
      FoldKind(k, done, kind);
    }
  }

  /** Everything that no action reached names is untouched. */
  lemma OthersUntouched(s: Server, plan: seq<Action>, k: Key)
    requires WellFormed(s) && Sound(plan, {}, {}) && TypesFit(plan)
    requires forall i :: 0 <= i < Reached(s, plan) ==> KeyOf(plan[i]) != k
    ensures At(Run(s, plan), k) == At(s, k)
  {
    RunReconciles(s, plan, {}, {});
    ReconcileAt(s, plan[..Reached(s, plan)], k);
    FoldElsewhere(k, At(s, k), plan[..Reached(s, plan)]);
  }

  lemma {:induction false} FoldElsewhere(k: Key, before: Option<Value>, plan: seq<Action>)
    requires forall i :: 0 <= i < |plan| ==> KeyOf(plan[i]) != k
    ensures Fold(k, before, plan) == before
    decreases |plan|
  {
    if plan != [] {
      assert KeyOf(plan[0]) != k;
      FoldElsewhere(k, before, plan[1..]);
    }
  }
}
