/** The partner webhook test receiver: one request through every check, and whole runs of requests. */
module WebhookReceiver {
  import opened Prelude
  import opened Json
  import opened ReplayWindow
  import opened GateBounds
  import Redactors

  type Bytes = seq<bv8>

  /**
   What reading the body gives. `Unreadable` is JSON the parser gives up on with another error than a syntax
   error: an integer with too many digits, or nesting too deep.
   */
  datatype Decoded = NotUtf8 | NotJson | Unreadable | Parsed(value: Document)

  /** The environment of the process; hashing, decoding and redaction are given. Redaction is None if it raises. */
  datatype Settings = Settings(
    maxBody: int, window: int, secret: Bytes,
    sha: Bytes -> string, mac: (Bytes, Bytes) -> string, parseInt: string -> Option<int>,
    decode: Bytes -> Decoded, redact: Document -> Option<Document>)

  datatype Post = Post(
    contentLength: Option<string>, body: Bytes,
    signature: Option<string>, timestamp: Option<string>, eventId: Option<string>)

  datatype Reason = BadLength | BadSignatureText | BadEncoding | BadDocument | BadRedaction

  /** A status code, or an exception the handler does not catch. */
  datatype Answer = Status(code: int) | Raised(reason: Reason)

  /** The answers to a request that was remembered. */
  const ACCEPTED: set<Answer> := {Status(202), Status(400)}

  /** The exceptions that end a request after it was remembered, so that it is never answered. */
  const LOST: set<Answer> := {Raised(BadEncoding), Raised(BadDocument), Raised(BadRedaction)}

  const PASSED: set<Answer> := ACCEPTED + LOST

  datatype Evidence = Evidence(result: string, body: Document, sha: string)

  datatype Check = Valid | Invalid | Raises

  function RemovePrefix(s: string, prefix: string): string {
    if prefix <= s then s[|prefix|..] else s
  }

  predicate IsAscii(s: string) {
    forall c :: c in s ==> c as int < 128
  }

  function CheckSignature(cfg: Settings, body: Bytes, provided: Option<string>): Check {
    if cfg.secret == [] then Valid
    else if provided.None? || provided.value == "" then Invalid
    else
      var normalized := Strip(RemovePrefix(provided.value, "sha256="));
      if !IsAscii(normalized) then Raises
      else if normalized == cfg.mac(cfg.secret, body) then Valid else Invalid
  }

  function Stamp(cfg: Settings, header: Option<string>): Option<int> {
    if header.None? || header.value == "" then None else cfg.parseInt(header.value)
  }

  function Length(cfg: Settings, post: Post): Option<int> {
    cfg.parseInt(match post.contentLength case Some(text) => text case None => "0")
  }

  function Parse(cfg: Settings, body: Bytes): Decoded {
    if body == [] then Parsed(Obj(map[])) else cfg.decode(body)
  }

  /** The document is looked at only after every other check. */
  function AnswerDocument(cfg: Settings, body: Bytes): Answer {
    match Parse(cfg, body)
    case NotUtf8 => Raised(BadEncoding)
    case NotJson => Status(400)
    case Unreadable => Raised(BadDocument)
    case Parsed(v) => if cfg.redact(v).None? then Raised(BadRedaction) else Status(202)
  }

  /** The map and the answer after one request, with its two clock readings. */
  function Respond(cfg: Settings, seen: Seen, post: Post, checkedAt: real, storedAt: real): (Seen, Answer) {
    var length := Length(cfg, post);
    if length.None? then (seen, Raised(BadLength))
    else if length.value > cfg.maxBody then (seen, Status(413))
    else
      match CheckSignature(cfg, post.body, post.signature)
      case Raises => (seen, Raised(BadSignatureText))
      case Invalid => (seen, Status(401))
      case Valid =>
        if cfg.secret == [] then (seen, AnswerDocument(cfg, post.body))
        else if !TimestampOk(cfg.window, Stamp(cfg, post.timestamp), checkedAt) then (seen, Status(401))
        else
          var (after, ok) := Remember(cfg.window, seen, Call(post.eventId, cfg.sha(post.body), storedAt));
          (after, if ok then AnswerDocument(cfg, post.body) else Status(409))
  }

  // ------------------------------------------------------------------------------------------
  // What the answers mean, in terms of the request.

  /** The header as far as the signature check looks at it: one leading `sha256=` taken away. */
  function HeaderText(header: string): string {
    if "sha256=" <= header then header[7..] else header
  }

  /** The request carries the right signature: the body's, with spaces around it at most. */
  predicate Signed(cfg: Settings, post: Post) {
    && post.signature.Some? && post.signature.value != ""
    && IsTrimOf(cfg.mac(cfg.secret, post.body), HeaderText(post.signature.value))
  }

  /** The request carries a number as timestamp that is at most the window away from the clock's whole second. */
  predicate Current(cfg: Settings, post: Post, now: real) {
    && post.timestamp.Some? && post.timestamp.value != "" && cfg.parseInt(post.timestamp.value).Some?
    && var t := cfg.parseInt(post.timestamp.value).value;
       (t - cfg.window) as real <= now < (t + cfg.window + 1) as real
  }

  /** The declared length, no header meaning zero. */
  function Declared(cfg: Settings, post: Post): Option<int> {
    cfg.parseInt(if post.contentLength.Some? then post.contentLength.value else "0")
  }

  /** The trimmed header is no ASCII text, which comparing signatures does not survive. */
  ghost predicate SignsOutsideAscii(post: Post) {
    && post.signature.Some?
    && exists t :: IsTrimOf(t, HeaderText(post.signature.value)) && exists c :: c in t && c as int >= 128
  }

  lemma ValidIff(cfg: Settings, post: Post)
    requires cfg.secret != []
    ensures var check := CheckSignature(cfg, post.body, post.signature);
            && (check.Raises? <==> SignsOutsideAscii(post))
            && (check.Valid? ==> Signed(cfg, post)) && (check.Invalid? ==> !Signed(cfg, post))
  {
    if post.signature.Some? {
      var text := HeaderText(post.signature.value);
      assert RemovePrefix(post.signature.value, "sha256=") == text;
      StripIff(cfg.mac(cfg.secret, post.body), text);
      forall t ensures IsTrimOf(t, text) <==> t == Strip(text) { StripIff(t, text); }
      assert IsTrimOf(Strip(text), text);
      assert !IsAscii(Strip(text)) <==> exists c :: c in Strip(text) && c as int >= 128;
    }
  }

  lemma CurrentIff(cfg: Settings, post: Post, now: real)
    requires now >= 0.0
    ensures Current(cfg, post, now) <==> TimestampOk(cfg.window, Stamp(cfg, post.timestamp), now)
  {
  }

  /** The declared length is a number within the limit. */
  predicate LengthOk(cfg: Settings, post: Post) {
    Declared(cfg, post).Some? && Declared(cfg, post).value <= cfg.maxBody
  }

  /**
   The decision table of a receiver with a secret, for a clock that is not negative. Exactly the requests with the
   right signature and a current timestamp get past the two checks; the others leave the map alone.
   */
  lemma AnswerMeans(cfg: Settings, seen: Seen, post: Post, checkedAt: real, storedAt: real)
    requires cfg.secret != [] && checkedAt >= 0.0
    ensures var (after, answer) := Respond(cfg, seen, post, checkedAt, storedAt);
            && (answer == Raised(BadLength) <==> Declared(cfg, post).None?)
            && (answer == Status(413) <==> Declared(cfg, post).Some? && !LengthOk(cfg, post))
            && (answer == Raised(BadSignatureText) <==> LengthOk(cfg, post) && SignsOutsideAscii(post))
            && (answer == Status(401) <==> LengthOk(cfg, post) && !SignsOutsideAscii(post)
                                           && !(Signed(cfg, post) && Current(cfg, post, checkedAt)))
            && (answer in PASSED + {Status(409)} <==> LengthOk(cfg, post) && !SignsOutsideAscii(post)
                                                      && Signed(cfg, post) && Current(cfg, post, checkedAt))
            && (answer !in PASSED + {Status(409)} ==> after == seen)
  {
    ValidIff(cfg, post);
    CurrentIff(cfg, post, checkedAt);
  }

  /** Without the right signature a request of acceptable length is refused, or its header is no ASCII text. */
  lemma UnsignedRefused(cfg: Settings, seen: Seen, post: Post, checkedAt: real, storedAt: real)
    requires cfg.secret != [] && !Signed(cfg, post)
    requires Declared(cfg, post).Some? && Declared(cfg, post).value <= cfg.maxBody
    ensures Respond(cfg, seen, post, checkedAt, storedAt) == (seen, Status(401)) ||
            (&& Respond(cfg, seen, post, checkedAt, storedAt) == (seen, Raised(BadSignatureText))
             && post.signature.Some? && exists c :: c in post.signature.value && c as int >= 128)
  {
    ValidIff(cfg, post);
    if CheckSignature(cfg, post.body, post.signature).Raises? {
      StripWithin(HeaderText(post.signature.value));
      var c :| c in Strip(HeaderText(post.signature.value)) && c as int >= 128;
      assert c in HeaderText(post.signature.value) && c in post.signature.value;
    }
  }

  lemma StripWithin(text: string)
    ensures forall c :: c in Strip(text) ==> c in text
  {
    StripTrims(text);
    var i :| 0 <= i <= |text| && TrimAt(Strip(text), text, i);
    assert Strip(text) == text[i..i + |Strip(text)|];
  }

  /** With the right signature the only reason left for a refusal is the timestamp or a replay. */
  lemma SignedNotRefused(cfg: Settings, seen: Seen, post: Post, checkedAt: real, storedAt: real)
    requires cfg.secret != [] && Signed(cfg, post) && checkedAt >= 0.0
    requires forall c :: c in cfg.mac(cfg.secret, post.body) ==> c as int < 128
    requires Declared(cfg, post).Some? && Declared(cfg, post).value <= cfg.maxBody
    ensures var answer := Respond(cfg, seen, post, checkedAt, storedAt).1;
            if Current(cfg, post, checkedAt) then answer in PASSED + {Status(409)} else answer == Status(401)
  {
    ValidIff(cfg, post);
    CurrentIff(cfg, post, checkedAt);
    StripIff(cfg.mac(cfg.secret, post.body), HeaderText(post.signature.value));
    assert RemovePrefix(post.signature.value, "sha256=") == HeaderText(post.signature.value);
  }

  /** The header the sender is to write, `sha256=` and the signature, is the right signature. */
  lemma OwnHeaderSigns(cfg: Settings, post: Post)
    requires var mac := cfg.mac(cfg.secret, post.body);
             && (forall c :: c in mac ==> !IsSpace(c)) && mac != ""
             && post.signature == Some("sha256=" + mac)
    ensures Signed(cfg, post)
  {
    var mac := cfg.mac(cfg.secret, post.body);
    assert HeaderText("sha256=" + mac) == mac;
    assert TrimAt(mac, mac, 0);
  }

  class Receiver {
    const cfg: Settings
    var seen: Seen
    var evidence: seq<Evidence>

    constructor (cfg: Settings)
      ensures this.cfg == cfg && seen == map[] && evidence == []
    {
      this.cfg, seen, evidence := cfg, map[], [];
    }

    /** The pruning loop and the insertion; the result says whether the event is new. */
    method RememberEventOrReplay(eventId: Option<string>, bodySha: string, now: real) returns (ok: bool)
      modifies this`seen
      ensures (seen, ok) == Remember(cfg.window, old(seen), Call(eventId, bodySha, now))
    {
      if eventId.None? || eventId.value == "" {
        return false;
      }
      var expiredBefore := now - cfg.window as real;
      var pending := seen.Keys;
      while pending != {}
        invariant pending <= old(seen).Keys
        invariant seen == map k | k in old(seen) && (k in pending || !(old(seen)[k] < expiredBefore)) :: old(seen)[k]
        decreases |pending|
      {
        var key :| key in pending;
        pending := pending - {key};
        if seen[key] < expiredBefore {
          seen := seen - {key};
        }
      }
      assert seen == Prune(cfg.window, old(seen), now);
      var replayKey := Key(eventId.value, bodySha);
      if replayKey in seen {
        return false;
      }
      seen := seen[replayKey := now];
      return true;
    }

    /** One request. Every answer but an uncaught exception leaves exactly one evidence entry, redacted. */
    method DoPost(post: Post, checkedAt: real, storedAt: real) returns (answer: Answer)
      modifies this
      ensures (seen, answer) == Respond(cfg, old(seen), post, checkedAt, storedAt)
      ensures answer.Raised? ==> evidence == old(evidence)
      ensures answer.Status? ==> |evidence| == |old(evidence)| + 1 && old(evidence) <= evidence
      ensures answer == Status(413) ==> evidence == old(evidence) + [Evidence("too_large", Obj(map[]), "")]
      ensures answer == Status(409) ==> evidence == old(evidence) + [Evidence("replay", Obj(map[]), cfg.sha(post.body))]
      ensures answer == Status(400) ==>
                evidence == old(evidence) + [Evidence("invalid_json", Obj(map[]), cfg.sha(post.body))]
      ensures answer == Status(401) ==>
                var result := if Signed(cfg, post) then "invalid_timestamp" else "invalid_signature";
                evidence == old(evidence) + [Evidence(result, Obj(map[]), cfg.sha(post.body))]
      ensures answer == Status(202) ==>
                && (post.body == [] || cfg.decode(post.body).Parsed?)
                && var document := if post.body == [] then Obj(map[]) else cfg.decode(post.body).value;
                && cfg.redact(document).Some?
                && evidence == old(evidence) + [Evidence("success", cfg.redact(document).value, cfg.sha(post.body))]
      ensures answer == Status(400) ==> post.body != [] && cfg.decode(post.body).NotJson?
      ensures cfg.secret != [] && checkedAt >= 0.0 && answer in PASSED + {Status(409)} ==>
                Signed(cfg, post) && Current(cfg, post, checkedAt)
      ensures cfg.secret != [] && checkedAt >= 0.0 && answer !in PASSED + {Status(409)} ==> seen == old(seen)
      ensures cfg.secret == [] ==> seen == old(seen) && answer !in {Status(401), Status(409), Raised(BadSignatureText)}
    {
      if cfg.secret != [] {
        ValidIff(cfg, post);
        if checkedAt >= 0.0 { AnswerMeans(cfg, seen, post, checkedAt, storedAt); }
      }
      var length := Length(cfg, post);
      if length.None? {
        return Raised(BadLength);
      }
      if length.value > cfg.maxBody {
        WriteEvidence("too_large", Obj(map[]), "");
        return Status(413);
      }
      var bodySha := cfg.sha(post.body);
      var signature := CheckSignature(cfg, post.body, post.signature);
      if signature.Raises? {
        return Raised(BadSignatureText);
      }
      if signature.Invalid? {
        WriteEvidence("invalid_signature", Obj(map[]), bodySha);
        return Status(401);
      }
      if cfg.secret != [] {
        if !TimestampOk(cfg.window, Stamp(cfg, post.timestamp), checkedAt) {
          WriteEvidence("invalid_timestamp", Obj(map[]), bodySha);
          return Status(401);
        }
        var fresh' := RememberEventOrReplay(post.eventId, bodySha, storedAt);
        if !fresh' {
          WriteEvidence("replay", Obj(map[]), bodySha);
          return Status(409);
        }
      }
      match Parse(cfg, post.body)
      case NotUtf8 =>
        answer := Raised(BadEncoding);
      case NotJson =>
        WriteEvidence("invalid_json", Obj(map[]), bodySha);
        answer := Status(400);
      case Unreadable =>
        answer := Raised(BadDocument);
      case Parsed(parsed) =>
        var redacted := cfg.redact(parsed);
        if redacted.None? {
          return Raised(BadRedaction);
        }
        WriteEvidence("success", redacted.value, bodySha);
        answer := Status(202);
    }

    method WriteEvidence(result: string, body: Document, sha: string)
      modifies this`evidence
      ensures evidence == old(evidence) + [Evidence(result, body, sha)]
    {
      evidence := evidence + [Evidence(result, body, sha)];
    }
  }

  // ------------------------------------------------------------------------------------------
  // Whole runs.

  /** A request with the two clock readings its handling used (equal to the first if there was no second). */
  datatype Visit = Visit(post: Post, checkedAt: real, storedAt: real)

  function SeenBy(cfg: Settings, visits: seq<Visit>): Seen {
    if visits == [] then map[]
    else
      var last := visits[|visits| - 1];
      Respond(cfg, SeenBy(cfg, visits[..|visits| - 1]), last.post, last.checkedAt, last.storedAt).0
  }

  function AnswerTo(cfg: Settings, visits: seq<Visit>, i: nat): Answer
    requires i < |visits|
  {
    var v := visits[i];
    Respond(cfg, SeenBy(cfg, visits[..i]), v.post, v.checkedAt, v.storedAt).1
  }

  /** All checks before the replay guard succeed. */
  predicate ReachesGuard(cfg: Settings, v: Visit) {
    && cfg.secret != []
    && Length(cfg, v.post).Some? && Length(cfg, v.post).value <= cfg.maxBody
    && CheckSignature(cfg, v.post.body, v.post.signature).Valid?
    && TimestampOk(cfg.window, Stamp(cfg, v.post.timestamp), v.checkedAt)
  }

  /** The guard's view of a visit. */
  function GuardCall(cfg: Settings, v: Visit): Call {
    Call(if ReachesGuard(cfg, v) then v.post.eventId else None, cfg.sha(v.post.body), v.storedAt)
  }

  function GuardCalls(cfg: Settings, visits: seq<Visit>): seq<Call> {
    seq(|visits|, i requires 0 <= i < |visits| => GuardCall(cfg, visits[i]))
  }

  /** The pipeline drives the guard with exactly these calls. */
  lemma {:induction false} PipelineDrivesGuard(cfg: Settings, visits: seq<Visit>)
    requires cfg.secret != []
    ensures SeenBy(cfg, visits) == SeenAfter(cfg.window, GuardCalls(cfg, visits))
    decreases |visits|
  {
    if visits != [] {
      var n := |visits| - 1;
      PipelineDrivesGuard(cfg, visits[..n]);
      assert GuardCalls(cfg, visits)[..n] == GuardCalls(cfg, visits[..n]);
    }
  }

  /** An accepted event: answered 202 or 400, or lost to a body that cannot be decoded, parsed or redacted. */
  lemma AnswerIsVerdict(cfg: Settings, visits: seq<Visit>, i: nat)
    requires cfg.secret != [] && i < |visits|
    ensures Verdict(cfg.window, GuardCalls(cfg, visits), i) <==> AnswerTo(cfg, visits, i) in PASSED
    ensures AnswerTo(cfg, visits, i) in PASSED ==>
              AnswerTo(cfg, visits, i) == AnswerDocument(cfg, visits[i].post.body)
  {
    PipelineDrivesGuard(cfg, visits[..i]);
    assert GuardCalls(cfg, visits)[..i] == GuardCalls(cfg, visits[..i]);
  }

  /** Readings of one clock, in the order in which requests pass the guard; hexadecimal hashes. */
  predicate OrderlyRun(cfg: Settings, visits: seq<Visit>) {
    && (forall i, j :: 0 <= i <= j < |visits| ==> visits[i].storedAt <= visits[j].storedAt)
    && (forall i :: 0 <= i < |visits| ==> NoColon(cfg.sha(visits[i].post.body)))
  }

  /** Requests answered with one of these in the last w seconds. */
  function Recent(cfg: Settings, visits: seq<Visit>, answers: set<Answer>, t: real): set<nat> {
    set i: nat | i < |visits| && AnswerTo(cfg, visits, i) in answers && t - visits[i].storedAt <= cfg.window as real
  }

  function EventKey(cfg: Settings, v: Visit): string {
    Key(match v.post.eventId case Some(id) => id case None => "", cfg.sha(v.post.body))
  }

  lemma RecentIsLive(cfg: Settings, visits: seq<Visit>, t: real)
    requires cfg.secret != [] && OrderlyRun(cfg, visits)
    ensures var h := GuardCalls(cfg, visits);
            && ClockMoves(h) && PlainHashes(h)
            && Recent(cfg, visits, PASSED, t) == LiveCalls(cfg.window, h, t)
            && forall i :: i in Recent(cfg, visits, PASSED, t) ==>
               HasId(h[i]) && EventKey(cfg, visits[i]) == KeyOf(h[i])
  {
    var h := GuardCalls(cfg, visits);
    forall i: nat | i < |visits|
      ensures Fresh(cfg.window, h, i) <==> AnswerTo(cfg, visits, i) in PASSED
    {
      AnswerIsVerdict(cfg, visits, i);
      GuardDecidesLikeHistory(cfg.window, h, i);
    }
  }

  /** The live part of the map is the keys of the requests that passed the guard in the last w seconds. */
  lemma LiveMapIsPassed(cfg: Settings, visits: seq<Visit>, t: real)
    requires cfg.secret != [] && OrderlyRun(cfg, visits)
    requires visits != [] ==> visits[|visits| - 1].storedAt <= t
    ensures LiveKeys(cfg.window, SeenBy(cfg, visits), t) ==
            set i | i in Recent(cfg, visits, PASSED, t) :: EventKey(cfg, visits[i])
  {
    var h := GuardCalls(cfg, visits);
    PipelineDrivesGuard(cfg, visits);
    RecentIsLive(cfg, visits, t);
    LiveMapIsLiveHistory(cfg.window, h, t);
    assert (set i | i in Recent(cfg, visits, PASSED, t) :: EventKey(cfg, visits[i]))
        == (set i | i in LiveCalls(cfg.window, h, t) :: KeyOf(h[i]));
  }

  /**
   The live part of the map is exactly the keys of the requests answered 202 or 400 in the window if and
   only if no request in the window was lost to a body that cannot be decoded, parsed or redacted.
   */
  lemma LiveMapIsAnswered(cfg: Settings, visits: seq<Visit>, t: real)
    requires cfg.secret != [] && OrderlyRun(cfg, visits)
    requires visits != [] ==> visits[|visits| - 1].storedAt <= t
    ensures LiveKeys(cfg.window, SeenBy(cfg, visits), t)
            == (set i | i in Recent(cfg, visits, ACCEPTED, t) :: EventKey(cfg, visits[i]))
            <==> Recent(cfg, visits, LOST, t) == {}
  {
    LiveMapIsPassed(cfg, visits, t);
    PassedSplits(cfg, visits, t);
    var passed, lost := Recent(cfg, visits, PASSED, t), Recent(cfg, visits, LOST, t);
    if lost == {} {
      assert passed == Recent(cfg, visits, ACCEPTED, t);
    } else {
      var i :| i in lost;
      assert i in passed && EventKey(cfg, visits[i]) in LiveKeys(cfg.window, SeenBy(cfg, visits), t);
      forall j | j in Recent(cfg, visits, ACCEPTED, t) ensures EventKey(cfg, visits[j]) != EventKey(cfg, visits[i]) {
        PassedKeysDiffer(cfg, visits, t, i, j);
      }
    }
  }

  lemma PassedSplits(cfg: Settings, visits: seq<Visit>, t: real)
    ensures Recent(cfg, visits, PASSED, t) == Recent(cfg, visits, ACCEPTED, t) + Recent(cfg, visits, LOST, t)
    ensures Recent(cfg, visits, ACCEPTED, t) !! Recent(cfg, visits, LOST, t)
  {
    assert ACCEPTED !! LOST;
  }

  lemma PassedKeysDiffer(cfg: Settings, visits: seq<Visit>, t: real, i: nat, j: nat)
    requires cfg.secret != [] && OrderlyRun(cfg, visits)
    requires visits != [] ==> visits[|visits| - 1].storedAt <= t
    requires i in Recent(cfg, visits, PASSED, t) && j in Recent(cfg, visits, PASSED, t) && i != j
    ensures EventKey(cfg, visits[i]) != EventKey(cfg, visits[j])
  {
    RecentIsLive(cfg, visits, t);
    if EventKey(cfg, visits[j]) == EventKey(cfg, visits[i]) {
      LiveCallsDistinct(cfg.window, GuardCalls(cfg, visits), t, i, j);
    }
  }

  /**
   Right after a request with an event id has been through the guard, the map size is the number of passed
   requests in the window.
   */
  lemma MapSizeCountsPassed(cfg: Settings, visits: seq<Visit>)
    requires cfg.secret != [] && OrderlyRun(cfg, visits) && visits != []
    requires var last := visits[|visits| - 1];
             ReachesGuard(cfg, last) && last.post.eventId.Some? && last.post.eventId.value != ""
    ensures |SeenBy(cfg, visits)| == |Recent(cfg, visits, PASSED, visits[|visits| - 1].storedAt)|
  {
    var h := GuardCalls(cfg, visits);
    PipelineDrivesGuard(cfg, visits);
    RecentIsLive(cfg, visits, visits[|visits| - 1].storedAt);
    MapSizeCountsAccepted(cfg.window, h);
  }

  /** Without a secret nothing is ever remembered, so nothing is ever refused as a replay. */
  lemma {:induction false} NoSecretNoGuard(cfg: Settings, visits: seq<Visit>)
    requires cfg.secret == []
    ensures SeenBy(cfg, visits) == map[]
    ensures forall i: nat :: i < |visits| ==> AnswerTo(cfg, visits, i) != Status(409)
    decreases |visits|
  {
    if visits != [] {
      NoSecretNoGuard(cfg, visits[..|visits| - 1]);
    }
  }

  // ------------------------------------------------------------------------------------------
  // Which bodies are remembered and never answered.

  /** Handling the body raises. */
  predicate BodyRaises(cfg: Settings, body: Bytes) {
    match Parse(cfg, body)
    case NotUtf8 => true
    case NotJson => false
    case Unreadable => true
    case Parsed(v) => cfg.redact(v).None?
  }

  /** A request that passes the guard is lost if and only if handling its body raises: the body alone decides. */
  lemma LostIff(cfg: Settings, visits: seq<Visit>, i: nat)
    requires cfg.secret != [] && i < |visits|
    ensures AnswerTo(cfg, visits, i) in LOST <==>
            Verdict(cfg.window, GuardCalls(cfg, visits), i) && BodyRaises(cfg, visits[i].post.body)
  {
    AnswerIsVerdict(cfg, visits, i);
  }

  /** The receiver's own redactor, under some key patterns and hash. */
  ghost predicate RedactsUnder(cfg: Settings, r: Redactors.Rules) {
    Redactors.Proper(r) && forall v :: cfg.redact(v) == Redactors.MaskBody(r, v)
  }

  /**
   With the receiver's redactor a body that parses to an object raises if and only if some first governing key is
   an identifier over a string with a surrogate in it.
   */
  lemma RaisesOnSurrogateIff(cfg: Settings, r: Redactors.Rules, body: Bytes)
    requires RedactsUnder(cfg, r) && Parse(cfg, body).Parsed?
    ensures BodyRaises(cfg, body) <==> exists path, k :: Redactors.RaisesAt(r, Parse(cfg, body).value, path, k)
  {
    var v := Parse(cfg, body).value;
    assert BodyRaises(cfg, body) <==> Redactors.MaskRaises(r, v, []);
    Redactors.RaiseTogether(r, [], v);
    Redactors.RaisesIff(r, [], v);
  }

  /** The bytes of the ASCII text `{"id":"\ud800"}`. */
  const SURROGATE_BODY: Bytes :=
    [0x7B, 0x22, 0x69, 0x64, 0x22, 0x3A, 0x22, 0x5C, 0x75, 0x64, 0x38, 0x30, 0x30, 0x22, 0x7D]

  /** What a JSON parser makes of it: the key `id` over a string of one lone surrogate. */
  const SURROGATE_DOCUMENT: Document := Obj(map[FromString("id") := Str([0xD800])])

  /** Such a body is plain ASCII, is remembered as an accepted event, and is never answered. */
  lemma SurrogateLost(cfg: Settings, r: Redactors.Rules, seen: Seen, post: Post, checkedAt: real, storedAt: real)
    requires RedactsUnder(cfg, r) && r.identifier(FromString("id")) && !r.sensitive(FromString("id"))
    requires post.body == SURROGATE_BODY && cfg.decode(SURROGATE_BODY) == Parsed(SURROGATE_DOCUMENT)
    requires ReachesGuard(cfg, Visit(post, checkedAt, storedAt))
    requires Remember(cfg.window, seen, Call(post.eventId, cfg.sha(post.body), storedAt)).1
    ensures Respond(cfg, seen, post, checkedAt, storedAt).1 == Raised(BadRedaction)
    ensures Key(post.eventId.value, cfg.sha(post.body)) in Respond(cfg, seen, post, checkedAt, storedAt).0
  {
    var key, text: Text := FromString("id"), [0xD800];
    assert text[0] == 0xD800 && HasSurrogate(text);
    assert key in SURROGATE_DOCUMENT.fields && Redactors.MaskRaises(r, SURROGATE_DOCUMENT.fields[key], key);
    assert Redactors.MaskRaises(r, SURROGATE_DOCUMENT, []);
  }

  // ------------------------------------------------------------------------------------------
  // How often one signed request can be answered 202.

  /** The gate's view of a visit that got as far as the timestamp check. */
  function AttemptOf(cfg: Settings, v: Visit): Attempt {
    Attempt(if ReachesGuard(cfg, v) then Stamp(cfg, v.post.timestamp) else None,
            v.post.eventId, cfg.sha(v.post.body), v.checkedAt, v.storedAt)
  }

  function Attempts(cfg: Settings, visits: seq<Visit>): seq<Attempt> {
    seq(|visits|, i requires 0 <= i < |visits| => AttemptOf(cfg, visits[i]))
  }

  /** The requests with this timestamp header, event id and body that were answered 202. */
  function Successes(cfg: Settings, visits: seq<Visit>, post: Post): set<nat> {
    set i: nat | i < |visits| && AnswerTo(cfg, visits, i) == Status(202)
                 && visits[i].post.timestamp == post.timestamp && visits[i].post.eventId == post.eventId
                 && visits[i].post.body == post.body
  }

  lemma SuccessesAreAccepted(cfg: Settings, visits: seq<Visit>, post: Post)
    requires cfg.secret != []
    ensures Successes(cfg, visits, post) == {} ||
            (Stamp(cfg, post.timestamp).Some? && post.eventId.Some? &&
             Successes(cfg, visits, post) <=
             AcceptedOf(cfg.window, Attempts(cfg, visits), Stamp(cfg, post.timestamp).value,
                        post.eventId.value, cfg.sha(post.body)))
  {
    var run, h := Attempts(cfg, visits), GuardCalls(cfg, visits);
    assert Calls(cfg.window, run) == h;
    forall i | i in Successes(cfg, visits, post)
      ensures Accepted(cfg.window, run, i) && run[i].stamp.Some? && post.eventId.Some?
              && run[i].stamp == Stamp(cfg, post.timestamp)
    {
      AnswerIsVerdict(cfg, visits, i);
      assert h[..i] == GuardCalls(cfg, visits[..i]);
    }
  }

  /**
   A captured request replayed against a sequential receiver is answered 202 at most four times (three on whole
   seconds).
   */
  lemma ReplayBound(cfg: Settings, visits: seq<Visit>, post: Post)
    requires cfg.secret != [] && cfg.window >= 1 && Sequential(Attempts(cfg, visits))
    ensures |Successes(cfg, visits, post)| <= 4
    ensures WholeSeconds(Attempts(cfg, visits)) ==> |Successes(cfg, visits, post)| <= 3
  {
    if stamp, id :| BoundBroken(cfg, visits, post, stamp, id, 4) {
      SequentialBound(cfg.window, Attempts(cfg, visits), stamp, id, cfg.sha(post.body));
    }
    SuccessesWithin(cfg, visits, post, 4);
    if WholeSeconds(Attempts(cfg, visits)) {
      if stamp, id :| BoundBroken(cfg, visits, post, stamp, id, 3) {
        SequentialBound(cfg.window, Attempts(cfg, visits), stamp, id, cfg.sha(post.body));
      }
      SuccessesWithin(cfg, visits, post, 3);
    }
  }

  /** The gate accepts this body with this timestamp and id more than n times. */
  predicate BoundBroken(cfg: Settings, visits: seq<Visit>, post: Post, stamp: int, id: string, n: nat) {
    |AcceptedOf(cfg.window, Attempts(cfg, visits), stamp, id, cfg.sha(post.body))| > n
  }

  lemma SuccessesWithin(cfg: Settings, visits: seq<Visit>, post: Post, n: nat)
    requires cfg.secret != [] && forall stamp, id :: !BoundBroken(cfg, visits, post, stamp, id, n)
    ensures |Successes(cfg, visits, post)| <= n
  {
    SuccessesAreAccepted(cfg, visits, post);
    if Successes(cfg, visits, post) != {} {
      var stamp, id := Stamp(cfg, post.timestamp).value, post.eventId.value;
      assert !BoundBroken(cfg, visits, post, stamp, id, n);
      SubsetSize(Successes(cfg, visits, post),
                 AcceptedOf(cfg.window, Attempts(cfg, visits), stamp, id, cfg.sha(post.body)));
    }
  }

  /** Whatever the order of handling, the delay between the two readings alone bounds the answers 202. */
  lemma DelayedReplayBound(cfg: Settings, visits: seq<Visit>, post: Post, d: real, n: nat)
    requires cfg.secret != [] && Threaded(Attempts(cfg, visits)) && Within(Attempts(cfg, visits), d)
    requires d <= ((n - 2) * cfg.window - 1) as real ||
             (WholeSeconds(Attempts(cfg, visits)) && d < ((n - 2) * (cfg.window + 1) + 2) as real)
    ensures |Successes(cfg, visits, post)| <= n
  {
    if stamp, id :| BoundBroken(cfg, visits, post, stamp, id, n) {
      if d <= ((n - 2) * cfg.window - 1) as real {
        DelayBound(cfg.window, d, Attempts(cfg, visits), stamp, id, cfg.sha(post.body), n);
      } else {
        WholeDelayBound(cfg.window, d, Attempts(cfg, visits), stamp, id, cfg.sha(post.body), n);
      }
    }
    SuccessesWithin(cfg, visits, post, n);
  }
}
