/**
 Two redactors of JSON documents: the one for partner import files and the one the webhook receiver
 applies to the bodies it keeps as evidence. The key patterns and the hash are parameters. Hashing encodes the
 value's text as UTF-8, which raises on a string with a surrogate in it.
 */
module Redactors {
  import opened Prelude
  import opened Json

  /** The sensitive-key and identifier-key patterns and the stable hash. */
  datatype Rules = Rules(sensitive: Text -> bool, identifier: Text -> bool, hash: Document -> Text)

  const REDACTED: Text := FromString("[REDACTED]")
  const TRUNCATED: Text := FromString("...[TRUNCATED]")

  /** What is assumed of the patterns and the hash: no pattern matches the empty key, hashes are short. */
  ghost predicate Proper(r: Rules) {
    !r.identifier([]) && !r.sensitive([]) && forall v :: |r.hash(v)| <= 128
  }

  // ------------------------------------------------------------------------------------------
  // The import redactor.

  function RedactValue(r: Rules, key: Text, v: Document): Document
    decreases v
  {
    if v.Null? then Null
    else if r.sensitive(key) then Str(REDACTED)
    else if r.identifier(key) then Str(r.hash(v))
    else match v
      case Obj(fields) => Obj(map k | k in fields :: RedactValue(r, k, fields[k]))
      case Arr(items) => Arr(seq(|items|, i requires 0 <= i < |items| => RedactValue(r, key, items[i])))
      case _ => v
  }

  function RedactRecord(r: Rules, fields: map<Text, Document>): map<Text, Document> {
    map k | k in fields :: RedactValue(r, k, fields[k])
  }

  /** The value's text cannot be encoded: only a string shows its surrogates, containers escape them. */
  predicate Unhashable(v: Document) {
    v.Str? && HasSurrogate(v.s)
  }

  /** Redaction meets an identifier it cannot hash, and raises. */
  predicate RedactRaises(r: Rules, key: Text, v: Document)
    decreases v
  {
    if v.Null? || r.sensitive(key) then false
    else if r.identifier(key) then Unhashable(v)
    else match v
      case Obj(fields) => exists k :: k in fields && RedactRaises(r, k, fields[k])
      case Arr(items) => exists i | 0 <= i < |items| :: RedactRaises(r, key, items[i])
      case _ => false
  }

  predicate RecordRaises(r: Rules, fields: map<Text, Document>) {
    exists k :: k in fields && RedactRaises(r, k, fields[k])
  }

  /** What becomes of a record: None if redaction raises. */
  function ImportRecord(r: Rules, fields: map<Text, Document>): Option<Document> {
    if RecordRaises(r, fields) then None else Some(Obj(RedactRecord(r, fields)))
  }

  datatype Failure = BadRoot | NotEncodable

  /** A whole JSON file: an object, or a list whose objects are redacted. */
  function RedactPayload(r: Rules, payload: Document): Result<Document, Failure> {
    match payload
    case Arr(items) =>
      if exists i | 0 <= i < |items| :: items[i].Obj? && RecordRaises(r, items[i].fields) then Err(NotEncodable)
      else
        Ok(Arr(seq(|items|, i requires 0 <= i < |items| =>
          if items[i].Obj? then Obj(RedactRecord(r, items[i].fields)) else items[i])))
    case Obj(fields) =>
      if RecordRaises(r, fields) then Err(NotEncodable) else Ok(Obj(RedactRecord(r, fields)))
    case _ => Err(BadRoot)
  }

  // ------------------------------------------------------------------------------------------
  // The receiver's redactor.

  function Mask(r: Rules, v: Document, key: Text): Document
    decreases v
  {
    if key != [] && r.identifier(key) then Str(r.hash(v))
    else match v
      case Obj(fields) =>
        Obj(map k | k in fields :: if r.sensitive(k) then Str(REDACTED) else Mask(r, fields[k], k))
      case Arr(items) => Arr(seq(|items|, i requires 0 <= i < |items| => Mask(r, items[i], key)))
      case Str(s) => Str(Shortened(s))
      case _ => v
  }

  function Shortened(s: Text): Text {
    if |s| > 128 then s[..32] + TRUNCATED else s
  }

  predicate MaskRaises(r: Rules, v: Document, key: Text)
    decreases v
  {
    if key != [] && r.identifier(key) then Unhashable(v)
    else match v
      case Obj(fields) => exists k :: k in fields && !r.sensitive(k) && MaskRaises(r, fields[k], k)
      case Arr(items) => exists i | 0 <= i < |items| :: MaskRaises(r, items[i], key)
      case _ => false
  }

  /** What becomes of a body: None if redaction raises. */
  function MaskBody(r: Rules, v: Document): Option<Document> {
    if MaskRaises(r, v, []) then None else Some(Mask(r, v, []))
  }

  // ------------------------------------------------------------------------------------------
  // Noninterference.

  /** Two values an observer of the redacted form cannot tell apart. */
  predicate SameView(r: Rules, key: Text, v: Document, w: Document)
    decreases v
  {
    if v.Null? || w.Null? then v == w
    else if r.sensitive(key) then true
    else if r.identifier(key) then r.hash(v) == r.hash(w)
    else match v
      case Obj(fields) =>
        w.Obj? && fields.Keys == w.fields.Keys && forall k :: k in fields ==> SameView(r, k, fields[k], w.fields[k])
      case Arr(items) =>
        w.Arr? && |items| == |w.items| && forall i :: 0 <= i < |items| ==> SameView(r, key, items[i], w.items[i])
      case _ => v == w
  }

  /** The redacted forms coincide exactly when the values look the same. */
  lemma {:induction false} SameViewIff(r: Rules, key: Text, v: Document, w: Document)
    ensures RedactValue(r, key, v) == RedactValue(r, key, w) <==> SameView(r, key, v, w)
    decreases v
  {
    if !v.Null? && !w.Null? && !r.sensitive(key) && !r.identifier(key) {
      match v
      case Obj(fields) =>
        if w.Obj? && fields.Keys == w.fields.Keys {
          var a, b := RedactValue(r, key, v).fields, RedactValue(r, key, w).fields;
          forall k | k in fields ensures a[k] == b[k] <==> SameView(r, k, fields[k], w.fields[k]) {
            SameViewIff(r, k, fields[k], w.fields[k]);
          }
          if SameView(r, key, v, w) { assert a == b; }
        } else if w.Obj? {
          assert RedactValue(r, key, v).fields.Keys == fields.Keys;
          assert RedactValue(r, key, w).fields.Keys == w.fields.Keys;
        }
      case Arr(items) =>
        if w.Arr? && |items| == |w.items| {
          var a, b := RedactValue(r, key, v).items, RedactValue(r, key, w).items;
          forall i | 0 <= i < |items| ensures a[i] == b[i] <==> SameView(r, key, items[i], w.items[i]) {
            SameViewIff(r, key, items[i], w.items[i]);
          }
          if SameView(r, key, v, w) { assert a == b; }
        } else if w.Arr? {
          assert |RedactValue(r, key, v).items| == |items|;
          assert |RedactValue(r, key, w).items| == |w.items|;
        }
      case _ =>
    }
  }

  /** Records redact to equal records exactly when they look the same field by field. */
  lemma RecordViewIff(r: Rules, v: map<Text, Document>, w: map<Text, Document>)
    ensures RedactRecord(r, v) == RedactRecord(r, w) <==>
            v.Keys == w.Keys && forall k :: k in v ==> SameView(r, k, v[k], w[k])
  {
    assert RedactRecord(r, v).Keys == v.Keys && RedactRecord(r, w).Keys == w.Keys;
    forall k | k in v && k in w
      ensures RedactRecord(r, v)[k] == RedactRecord(r, w)[k] <==> SameView(r, k, v[k], w[k])
    {
      SameViewIff(r, k, v[k], w[k]);
    }
  }

  // ------------------------------------------------------------------------------------------
  // The same by paths.

  datatype Step = Field(key: Text) | Item(index: nat)

  /** The value at the end of a path. */
  function At(v: Document, path: seq<Step>): Option<Document>
    decreases |path|
  {
    if path == [] then Some(v)
    else match (path[0], v)
      case (Field(k), Obj(fields)) => if k in fields then At(fields[k], path[1..]) else None
      case (Item(i), Arr(items)) => if i < |items| then At(items[i], path[1..]) else None
      case _ => None
  }

  /** Writing w at the end of a path; nothing changes if the path leads nowhere. */
  function Replace(v: Document, path: seq<Step>, w: Document): Document
    decreases |path|
  {
    if path == [] then w
    else match (path[0], v)
      case (Field(k), Obj(fields)) => if k in fields then Obj(fields[k := Replace(fields[k], path[1..], w)]) else v
      case (Item(i), Arr(items)) => if i < |items| then Arr(items[i := Replace(items[i], path[1..], w)]) else v
      case _ => v
  }

  predicate Governs(r: Rules, s: Step) {
    s.Field? && (r.sensitive(s.key) || r.identifier(s.key))
  }

  /** No key on the path is sensitive or an identifier. */
  predicate Open(r: Rules, path: seq<Step>) {
    forall i :: 0 <= i < |path| ==> !Governs(r, path[i])
  }

  lemma {:induction false} ReplaceIsAppend(v: Document, path: seq<Step>, rest: seq<Step>, w: Document)
    requires At(v, path).Some?
    ensures Replace(v, path + rest, w) == Replace(v, path, Replace(At(v, path).value, rest, w))
    decreases |path|
  {
    if path == [] {
      assert path + rest == rest;
    } else {
      assert (path + rest)[0] == path[0] && (path + rest)[1..] == path[1..] + rest;
      match (path[0], v)
      case (Field(k), Obj(fields)) => ReplaceIsAppend(fields[k], path[1..], rest, w);
      case (Item(i), Arr(items)) => ReplaceIsAppend(items[i], path[1..], rest, w);
    }
  }

  lemma ViewOfItself(r: Rules, key: Text, v: Document)
    ensures SameView(r, key, v, v)
  {
    SameViewIff(r, key, v, v);
  }

  /** What stands at the end of the path matters only as far as the redactor sees it there. */
  lemma {:induction false} ViewThroughPath(r: Rules, key: Text, v: Document, path: seq<Step>, k: Text, w: Document)
    requires !r.sensitive(key) && !r.identifier(key) && Open(r, path)
    requires At(v, path + [Field(k)]).Some?
    requires SameView(r, k, At(v, path + [Field(k)]).value, w)
    ensures SameView(r, key, v, Replace(v, path + [Field(k)], w))
    decreases |path|
  {
    var whole := path + [Field(k)];
    var tail := if path == [] then [] else path[1..] + [Field(k)];
    assert whole[1..] == tail;
    match (whole[0], v)
    case (Field(name), Obj(fields)) =>
      if path != [] {
        assert !Governs(r, path[0]) && path[0] == Field(name);
        ViewThroughPath(r, name, fields[name], path[1..], k, w);
      }
      forall other | other in fields ensures SameView(r, other, fields[other], fields[other]) {
        ViewOfItself(r, other, fields[other]);
      }
    case (Item(i), Arr(items)) =>
      assert path != [];
      ViewThroughPath(r, key, items[i], path[1..], k, w);
      forall j | 0 <= j < |items| ensures SameView(r, key, items[j], items[j]) {
        ViewOfItself(r, key, items[j]);
      }
  }

  /** Whether redaction raises depends on the value there only as far as raising is concerned. */
  lemma {:induction false} FateThroughPath(r: Rules, key: Text, v: Document, path: seq<Step>, k: Text, w: Document)
    requires !r.sensitive(key) && !r.identifier(key) && Open(r, path)
    requires At(v, path + [Field(k)]).Some?
    requires RedactRaises(r, k, At(v, path + [Field(k)]).value) <==> RedactRaises(r, k, w)
    ensures RedactRaises(r, key, v) <==> RedactRaises(r, key, Replace(v, path + [Field(k)], w))
    decreases |path|
  {
    var whole := path + [Field(k)];
    assert whole[1..] == if path == [] then [] else path[1..] + [Field(k)];
    match (whole[0], v)
    case (Field(name), Obj(fields)) =>
      if path != [] {
        assert !Governs(r, path[0]) && path[0] == Field(name);
        FateThroughPath(r, name, fields[name], path[1..], k, w);
      }
      var edited := Replace(v, whole, w).fields;
      assert edited == fields[name := Replace(fields[name], whole[1..], w)];
      assert RedactRaises(r, name, fields[name]) <==> RedactRaises(r, name, edited[name]);
      assert forall other :: other in fields && other != name ==> edited[other] == fields[other];
    case (Item(i), Arr(items)) =>
      assert path != [];
      FateThroughPath(r, key, items[i], path[1..], k, w);
      var edited := Replace(v, whole, w).items;
      assert edited == items[i := Replace(items[i], whole[1..], w)];
      assert RedactRaises(r, key, items[i]) <==> RedactRaises(r, key, edited[i]);
      forall j | 0 <= j < |items| ensures RedactRaises(r, key, items[j]) <==> RedactRaises(r, key, edited[j]) {
        if j != i { assert edited[j] == items[j]; }
      }
  }

  /**
   Noninterference. Take any document, any path to a sensitive or identifier key that passes no other
   such key, and any path below it. Writing there leaves the redacted document unchanged, provided the
   value under the key was and stays non-null and, for an identifier key, keeps its hash.
   */
  lemma EditUnderKeyInvisible(r: Rules, v: Document, path: seq<Step>, k: Text, below: seq<Step>, w: Document)
    requires Proper(r) && Open(r, path) && Governs(r, Field(k))
    requires At(v, path + [Field(k)]).Some?
    requires var old_ := At(v, path + [Field(k)]).value;
             && !old_.Null? && !Replace(old_, below, w).Null?
             && (r.sensitive(k) || r.hash(old_) == r.hash(Replace(old_, below, w)))
    ensures RedactValue(r, [], Replace(v, path + [Field(k)] + below, w)) == RedactValue(r, [], v)
    ensures var old_ := At(v, path + [Field(k)]).value;
            (r.sensitive(k) || (Unhashable(old_) <==> Unhashable(Replace(old_, below, w)))) ==>
              (RedactRaises(r, [], Replace(v, path + [Field(k)] + below, w)) <==> RedactRaises(r, [], v))
  {
    var was := At(v, path + [Field(k)]).value;
    ReplaceIsAppend(v, path + [Field(k)], below, w);
    ViewThroughPath(r, [], v, path, k, Replace(was, below, w));
    if r.sensitive(k) || (Unhashable(was) <==> Unhashable(Replace(was, below, w))) {
      FateThroughPath(r, [], v, path, k, Replace(was, below, w));
    }
    SameViewIff(r, [], v, Replace(v, path + [Field(k)] + below, w));
  }

  /** The constructor, the keys and the length of a value, and the value itself when it is a scalar. */
  predicate SameShape(v: Document, w: Document) {
    match v
    case Obj(fields) => w.Obj? && fields.Keys == w.fields.Keys
    case Arr(items) => w.Arr? && |items| == |w.items|
    case _ => v == w
  }

  /** Everything not under a sensitive or identifier key stays in place. */
  lemma {:induction false} OpenPathsKept(r: Rules, key: Text, v: Document, path: seq<Step>)
    requires !r.sensitive(key) && !r.identifier(key) && Open(r, path)
    ensures At(v, path).Some? <==> At(RedactValue(r, key, v), path).Some?
    ensures At(v, path).Some? ==> SameShape(At(v, path).value, At(RedactValue(r, key, v), path).value)
    decreases |path|
  {
    if path != [] {
      assert !Governs(r, path[0]);
      assert Open(r, path[1..]);
      match (path[0], v)
      case (Field(k), Obj(fields)) => if k in fields { OpenPathsKept(r, k, fields[k], path[1..]); }
      case (Item(i), Arr(items)) => if i < |items| { OpenPathsKept(r, key, items[i], path[1..]); }
      case _ =>
    }
  }

  /** The first sensitive or identifier key on a path is where the document is cut off. */
  lemma {:induction false} GovernedPathsCut(r: Rules, key: Text, v: Document, path: seq<Step>, k: Text,
                                            below: seq<Step>)
    requires !r.sensitive(key) && !r.identifier(key) && Open(r, path) && Governs(r, Field(k))
    requires At(v, path + [Field(k)]).Some?
    ensures var w := At(v, path + [Field(k)]).value;
            At(RedactValue(r, key, v), path + [Field(k)]) ==
              Some(if w.Null? then Null else if r.sensitive(k) then Str(FromString("[REDACTED]")) else Str(r.hash(w)))
    ensures below != [] ==> At(RedactValue(r, key, v), path + [Field(k)] + below).None?
    decreases |path|
  {
    var whole := path + [Field(k)];
    assert (whole + below)[0] == whole[0];
    assert (whole + below)[1..] == whole[1..] + below;
    if path == [] {
      assert whole[1..] == [];
      assert [] + below == below;
    } else {
      assert whole[1..] == path[1..] + [Field(k)];
      assert !Governs(r, path[0]);
      match (path[0], v)
      case (Field(name), Obj(fields)) => GovernedPathsCut(r, name, fields[name], path[1..], k, below);
      case (Item(i), Arr(items)) => GovernedPathsCut(r, key, items[i], path[1..], k, below);
    }
  }

  /** What the receiver's redactor leaves of a value it need not hide: long strings keep 32 characters and a mark. */
  predicate ShapeKept(v: Document, w: Document) {
    match v
    case Str(s) =>
      if |s| <= 128 then w == v
      else w.Str? && |w.s| == 46 && w.s[..32] == s[..32] && w.s[32..] == FromString("...[TRUNCATED]")
    case _ => SameShape(v, w)
  }

  lemma {:induction false} MaskedOpenPathsKept(r: Rules, key: Text, v: Document, path: seq<Step>)
    requires Proper(r) && !r.identifier(key) && Open(r, path)
    ensures At(v, path).Some? <==> At(Mask(r, v, key), path).Some?
    ensures At(v, path).Some? ==> ShapeKept(At(v, path).value, At(Mask(r, v, key), path).value)
    decreases |path|
  {
    if path != [] {
      assert !Governs(r, path[0]);
      assert Open(r, path[1..]);
      match (path[0], v)
      case (Field(k), Obj(fields)) => if k in fields { MaskedOpenPathsKept(r, k, fields[k], path[1..]); }
      case (Item(i), Arr(items)) => if i < |items| { MaskedOpenPathsKept(r, key, items[i], path[1..]); }
      case _ =>
    }
  }

  /** The receiver's redactor cuts at the first governing key too, and hides null there as well. */
  lemma {:induction false} MaskedGovernedPathsCut(r: Rules, key: Text, v: Document, path: seq<Step>, k: Text,
                                                  below: seq<Step>)
    requires Proper(r) && !r.identifier(key) && Open(r, path) && Governs(r, Field(k))
    requires At(v, path + [Field(k)]).Some?
    ensures At(Mask(r, v, key), path + [Field(k)]) ==
              Some(if r.sensitive(k) then Str(FromString("[REDACTED]"))
                   else Str(r.hash(At(v, path + [Field(k)]).value)))
    ensures below != [] ==> At(Mask(r, v, key), path + [Field(k)] + below).None?
    decreases |path|
  {
    var whole := path + [Field(k)];
    assert (whole + below)[0] == whole[0];
    assert (whole + below)[1..] == whole[1..] + below;
    if path == [] {
      assert whole[1..] == [];
      assert [] + below == below;
    } else {
      assert whole[1..] == path[1..] + [Field(k)];
      assert !Governs(r, path[0]);
      match (path[0], v)
      case (Field(name), Obj(fields)) => MaskedGovernedPathsCut(r, name, fields[name], path[1..], k, below);
      case (Item(i), Arr(items)) => MaskedGovernedPathsCut(r, key, items[i], path[1..], k, below);
    }
  }

  // ------------------------------------------------------------------------------------------
  // When redaction raises.

  /** Redaction raises if and only if some first governing key is an identifier over a string with a surrogate. */
  lemma {:induction false} RaisesIff(r: Rules, key: Text, v: Document)
    requires !r.sensitive(key) && !r.identifier(key)
    ensures RedactRaises(r, key, v) <==> exists path, k :: RaisesAt(r, v, path, k)
    decreases v
  {
    if RedactRaises(r, key, v) {
      match v
      case Obj(fields) =>
        var k :| k in fields && RedactRaises(r, k, fields[k]);
        if r.identifier(k) {
          assert At(v, [Field(k)]) == At(fields[k], [Field(k)][1..]);
          assert [] + [Field(k)] == [Field(k)];
          assert RaisesAt(r, v, [], k);
        } else {
          RaisesIff(r, k, fields[k]);
          var path, name :| RaisesAt(r, fields[k], path, name);
          RaisesBelow(r, v, Field(k), fields[k], path, name);
        }
      case Arr(items) =>
        var i :| 0 <= i < |items| && RedactRaises(r, key, items[i]);
        RaisesIff(r, key, items[i]);
        var path, name :| RaisesAt(r, items[i], path, name);
        RaisesBelow(r, v, Item(i), items[i], path, name);
    }
    if path, k :| RaisesAt(r, v, path, k) {
      RaisesThere(r, key, v, path, k);
    }
  }

  /** A string with a surrogate among its code points. */
  predicate SurrogateIn(v: Document) {
    v.Str? && exists i | 0 <= i < |v.s| :: 0xD800 <= v.s[i] <= 0xDFFF
  }

  lemma UnhashableIff(v: Document)
    ensures Unhashable(v) <==> SurrogateIn(v)
  {
  }

  /** At the end of the path stands an identifier key, no governing key before it, over an unencodable string. */
  predicate RaisesAt(r: Rules, v: Document, path: seq<Step>, k: Text) {
    && Open(r, path) && !r.sensitive(k) && r.identifier(k)
    && At(v, path + [Field(k)]).Some? && SurrogateIn(At(v, path + [Field(k)]).value)
  }

  lemma RaisesBelow(r: Rules, v: Document, step: Step, below: Document, path: seq<Step>, k: Text)
    requires !Governs(r, step) && At(v, [step]) == Some(below) && RaisesAt(r, below, path, k)
    ensures RaisesAt(r, v, [step] + path, k)
  {
    var whole := [step] + path + [Field(k)];
    assert whole[0] == step && whole[1..] == path + [Field(k)];
    assert [step][1..] == [];
    forall i | 0 <= i < |[step] + path| ensures !Governs(r, ([step] + path)[i]) {
      if i > 0 { assert !Governs(r, path[i - 1]); }
    }
  }

  lemma {:induction false} RaisesThere(r: Rules, key: Text, v: Document, path: seq<Step>, k: Text)
    requires !r.sensitive(key) && !r.identifier(key) && RaisesAt(r, v, path, k)
    ensures RedactRaises(r, key, v)
    decreases |path|
  {
    var whole := path + [Field(k)];
    if path == [] {
      assert whole[1..] == [] && whole[0] == Field(k);
      assert At(v, whole) == At(v.fields[k], whole[1..]) == Some(v.fields[k]);
      assert RedactRaises(r, k, v.fields[k]);
    } else {
      assert whole[0] == path[0] && whole[1..] == path[1..] + [Field(k)];
      assert !Governs(r, path[0]);
      match (path[0], v)
      case (Field(name), Obj(fields)) =>
        RaisesThere(r, name, fields[name], path[1..], k);
      case (Item(i), Arr(items)) =>
        RaisesThere(r, key, items[i], path[1..], k);
    }
  }

  /** With shared rules both redactors raise on the same documents. */
  lemma {:induction false} RaiseTogether(r: Rules, key: Text, v: Document)
    requires Proper(r) && !r.sensitive(key) && !r.identifier(key)
    ensures RedactRaises(r, key, v) <==> MaskRaises(r, v, key)
    decreases v
  {
    match v
    case Obj(fields) =>
      forall k | k in fields
        ensures RedactRaises(r, k, fields[k]) <==> !r.sensitive(k) && MaskRaises(r, fields[k], k)
      {
        if !Governs(r, Field(k)) {
          RaiseTogether(r, k, fields[k]);
        } else if !r.sensitive(k) {
          assert k != [];
        }
      }
    case Arr(items) =>
      forall i | 0 <= i < |items| ensures RedactRaises(r, key, items[i]) <==> MaskRaises(r, items[i], key) {
        RaiseTogether(r, key, items[i]);
      }
    case _ =>
  }

  // ------------------------------------------------------------------------------------------
  // Agreement of the two, each under its own rules.

  /** The text the import redactor puts in place of a non-null value at key k. */
  function ImportMark(r: Rules, k: Text, w: Document): Option<Text> {
    if r.sensitive(k) then Some(REDACTED) else if r.identifier(k) then Some(r.hash(w)) else None
  }

  /** The text the receiver's redactor puts there. */
  function MaskMark(q: Rules, k: Text, w: Document): Option<Text> {
    if q.sensitive(k) then Some(REDACTED) else if k != [] && q.identifier(k) then Some(q.hash(w)) else None
  }

  /** The field comes out the same. */
  predicate FieldAlike(r: Rules, q: Rules, k: Text, w: Document)
    decreases w, 1
  {
    if w.Null? then MaskMark(q, k, w).None?
    else match (ImportMark(r, k, w), MaskMark(q, k, w))
      case (Some(a), Some(b)) => a == b
      case (Some(a), None) => w.Str? && Shortened(w.s) == a
      case (None, Some(b)) => w == Str(b)
      case (None, None) => Alike(r, q, w)
  }

  /** Every field comes out the same, and no string outside governed keys is long. */
  predicate Alike(r: Rules, q: Rules, v: Document)
    decreases v, 0
  {
    match v
    case Obj(fields) => forall k :: k in fields ==> FieldAlike(r, q, k, fields[k])
    case Arr(items) => forall i :: 0 <= i < |items| ==> Alike(r, q, items[i])
    case Str(s) => |s| <= 128
    case _ => true
  }

  lemma ShortenedIff(s: Text)
    ensures Shortened(s) == s <==> |s| <= 128
    ensures |s| > 128 ==> |Shortened(s)| == 46
  {
  }

  /** Whatever the rules of the two: they agree on a value if and only if its fields come out the same. */
  lemma {:induction false} RedactorsAgreeIff(r: Rules, q: Rules, key: Text, v: Document)
    requires !r.sensitive(key) && !r.identifier(key) && (key == [] || !q.identifier(key))
    ensures RedactValue(r, key, v) == Mask(q, v, key) <==> Alike(r, q, v)
    decreases v, 0
  {
    match v
    case Obj(fields) =>
      var a, b := RedactValue(r, key, v).fields, Mask(q, v, key).fields;
      forall k | k in fields ensures a[k] == b[k] <==> FieldAlike(r, q, k, fields[k]) {
        FieldsAgreeIff(r, q, k, fields[k]);
      }
      if Alike(r, q, v) { assert a == b; }
    case Arr(items) =>
      var a, b := RedactValue(r, key, v).items, Mask(q, v, key).items;
      forall i | 0 <= i < |items| ensures a[i] == b[i] <==> Alike(r, q, items[i]) {
        RedactorsAgreeIff(r, q, key, items[i]);
      }
      if Alike(r, q, v) { assert a == b; }
    case Str(s) => ShortenedIff(s);
    case _ =>
  }

  lemma {:induction false} FieldsAgreeIff(r: Rules, q: Rules, k: Text, w: Document)
    ensures RedactValue(r, k, w) == (if q.sensitive(k) then Str(REDACTED) else Mask(q, w, k)) <==>
            FieldAlike(r, q, k, w)
    decreases w, 1
  {
    if !w.Null? && ImportMark(r, k, w).None? {
      if MaskMark(q, k, w).None? {
        RedactorsAgreeIff(r, q, k, w);
      } else {
        LeftAsIs(r, k, w, MaskMark(q, k, w).value);
      }
    }
  }

  /** Outside governed keys only a string comes out as a string, and as itself. */
  lemma LeftAsIs(r: Rules, k: Text, w: Document, t: Text)
    requires !r.sensitive(k) && !r.identifier(k)
    ensures RedactValue(r, k, w) == Str(t) <==> w == Str(t)
  {
  }

  /** What becomes of a record agrees if and only if both raise, or neither does and the fields come out the same. */
  lemma OutcomesAgreeIff(r: Rules, q: Rules, fields: map<Text, Document>)
    requires Proper(r)
    ensures ImportRecord(r, fields) == MaskBody(q, Obj(fields)) <==>
            var raises, masksRaises := RecordRaises(r, fields), MaskRaises(q, Obj(fields), []);
            (raises && masksRaises) || (!raises && !masksRaises && Alike(r, q, Obj(fields)))
  {
    RedactorsAgreeIff(r, q, [], Obj(fields));
    assert RedactValue(r, [], Obj(fields)) == Obj(RedactRecord(r, fields));
  }

  // ------------------------------------------------------------------------------------------
  // Agreement under shared rules.

  /** No null directly under a sensitive or identifier key, no long string outside such keys. */
  predicate Plain(r: Rules, v: Document)
    decreases v
  {
    match v
    case Obj(fields) =>
      forall k :: k in fields ==> if Governs(r, Field(k)) then !fields[k].Null? else Plain(r, fields[k])
    case Arr(items) => forall i :: 0 <= i < |items| ==> Plain(r, items[i])
    case Str(s) => |s| <= 128
    case _ => true
  }

  lemma {:induction false} SharedAlikeIff(r: Rules, v: Document)
    requires Proper(r)
    ensures Alike(r, r, v) <==> Plain(r, v)
    decreases v
  {
    match v
    case Obj(fields) =>
      forall k | k in fields
        ensures FieldAlike(r, r, k, fields[k]) <==>
                if Governs(r, Field(k)) then !fields[k].Null? else Plain(r, fields[k])
      {
        if !Governs(r, Field(k)) {
          SharedAlikeIff(r, fields[k]);
        } else if !r.sensitive(k) {
          assert k != [];
        }
      }
    case Arr(items) =>
      forall i | 0 <= i < |items| ensures Alike(r, r, items[i]) <==> Plain(r, items[i]) {
        SharedAlikeIff(r, items[i]);
      }
    case _ =>
  }

  /** Under shared rules a record comes out the same if and only if redacting it raises or it is plain. */
  lemma RecordsAgreeIff(r: Rules, fields: map<Text, Document>)
    requires Proper(r)
    ensures MaskBody(r, Obj(fields)) == ImportRecord(r, fields) <==>
            RecordRaises(r, fields) || Plain(r, Obj(fields))
  {
    OutcomesAgreeIff(r, r, fields);
    SharedAlikeIff(r, Obj(fields));
    RaiseTogether(r, [], Obj(fields));
  }

  predicate NullFree(v: Document)
    decreases v
  {
    match v
    case Null => false
    case Obj(fields) => forall k :: k in fields ==> NullFree(fields[k])
    case Arr(items) => forall i :: 0 <= i < |items| ==> NullFree(items[i])
    case _ => true
  }

  /** No string value longer than n, at any depth. */
  predicate StringsWithin(v: Document, n: nat)
    decreases v
  {
    match v
    case Obj(fields) => forall k :: k in fields ==> StringsWithin(fields[k], n)
    case Arr(items) => forall i :: 0 <= i < |items| ==> StringsWithin(items[i], n)
    case Str(s) => |s| <= n
    case _ => true
  }

  lemma {:induction false} ShortAndNullFreeIsPlain(r: Rules, v: Document)
    requires NullFree(v) && StringsWithin(v, 128)
    ensures Plain(r, v)
    decreases v
  {
    match v
    case Obj(fields) => forall k | k in fields ensures Plain(r, fields[k]) { ShortAndNullFreeIsPlain(r, fields[k]); }
    case Arr(items) =>
      forall i | 0 <= i < |items| ensures Plain(r, items[i]) { ShortAndNullFreeIsPlain(r, items[i]); }
    case _ =>
  }

  /** Null-free records with no string over 128 characters: one redactor does for the other. */
  lemma RedactorsAgree(r: Rules, fields: map<Text, Document>)
    requires Proper(r) && NullFree(Obj(fields)) && StringsWithin(Obj(fields), 128)
    ensures MaskBody(r, Obj(fields)) == ImportRecord(r, fields)
  {
    ShortAndNullFreeIsPlain(r, Obj(fields));
    RecordsAgreeIff(r, fields);
  }

  // ------------------------------------------------------------------------------------------
  // Kept evidence is bounded and stable.

  /** The receiver's redactor leaves no string value over 128 characters anywhere. */
  lemma {:induction false} MaskedStringsShort(r: Rules, v: Document, key: Text)
    requires Proper(r)
    ensures StringsWithin(Mask(r, v, key), 128)
    decreases v
  {
    if key == [] || !r.identifier(key) {
      match v
      case Obj(fields) =>
        forall k | k in fields ensures StringsWithin(Mask(r, v, key).fields[k], 128) {
          if !r.sensitive(k) { MaskedStringsShort(r, fields[k], k); }
        }
      case Arr(items) =>
        forall i | 0 <= i < |items| ensures StringsWithin(Mask(r, v, key).items[i], 128) {
          MaskedStringsShort(r, items[i], key);
        }
      case _ =>
    }
  }

  /** Every value hashed under an identifier key is one whose hash hashes to itself. */
  predicate HashStable(r: Rules, v: Document, key: Text)
    decreases v
  {
    if key != [] && r.identifier(key) then r.hash(Str(r.hash(v))) == r.hash(v)
    else match v
      case Obj(fields) => forall k :: k in fields && !r.sensitive(k) ==> HashStable(r, fields[k], k)
      case Arr(items) => forall i :: 0 <= i < |items| ==> HashStable(r, items[i], key)
      case _ => true
  }

  /** Masking twice is masking once exactly when every hashed identifier has a stable hash. */
  lemma {:induction false} MaskTwiceIff(r: Rules, v: Document, key: Text)
    ensures Mask(r, Mask(r, v, key), key) == Mask(r, v, key) <==> HashStable(r, v, key)
    decreases v
  {
    if key == [] || !r.identifier(key) {
      match v
      case Obj(fields) =>
        var once := Mask(r, v, key).fields;
        var twice := Mask(r, Obj(once), key).fields;
        forall k | k in fields ensures twice[k] == once[k] <==> (!r.sensitive(k) ==> HashStable(r, fields[k], k)) {
          if !r.sensitive(k) { MaskTwiceIff(r, fields[k], k); }
        }
        if HashStable(r, v, key) { assert twice == once; }
      case Arr(items) =>
        var once := Mask(r, v, key).items;
        var twice := Mask(r, Arr(once), key).items;
        forall i | 0 <= i < |items| ensures twice[i] == once[i] <==> HashStable(r, items[i], key) {
          MaskTwiceIff(r, items[i], key);
        }
        if HashStable(r, v, key) { assert twice == once; }
      case _ =>
    }
  }

  /** No key in the document is an identifier. */
  predicate NoIdentifiers(r: Rules, v: Document)
    decreases v
  {
    match v
    case Obj(fields) => forall k :: k in fields ==> !r.identifier(k) && NoIdentifiers(r, fields[k])
    case Arr(items) => forall i :: 0 <= i < |items| ==> NoIdentifiers(r, items[i])
    case _ => true
  }

  lemma {:induction false} NoIdentifiersIsStable(r: Rules, v: Document, key: Text)
    requires NoIdentifiers(r, v) && !r.identifier(key)
    ensures HashStable(r, v, key)
    decreases v
  {
    match v
    case Obj(fields) =>
      forall k | k in fields ensures HashStable(r, fields[k], k) { NoIdentifiersIsStable(r, fields[k], k); }
    case Arr(items) =>
      forall i | 0 <= i < |items| ensures HashStable(r, items[i], key) { NoIdentifiersIsStable(r, items[i], key); }
    case _ =>
  }

  lemma MaskIdempotent(r: Rules, v: Document)
    requires Proper(r) && NoIdentifiers(r, v)
    ensures Mask(r, Mask(r, v, []), []) == Mask(r, v, [])
  {
    NoIdentifiersIsStable(r, v, []);
    MaskTwiceIff(r, v, []);
  }

  // ------------------------------------------------------------------------------------------
  // Files whose root is a list.

  /** Nothing is left to redact: under a governing key stands only null or what redaction puts there. */
  predicate Clean(r: Rules, key: Text, v: Document)
    decreases v
  {
    if v.Null? then true
    else if r.sensitive(key) then v == Str(REDACTED)
    else if r.identifier(key) then v == Str(r.hash(v))
    else match v
      case Obj(fields) => forall k :: k in fields ==> Clean(r, k, fields[k])
      case Arr(items) => forall i :: 0 <= i < |items| ==> Clean(r, key, items[i])
      case _ => true
  }

  lemma {:induction false} UnchangedIffClean(r: Rules, key: Text, v: Document)
    ensures RedactValue(r, key, v) == v <==> Clean(r, key, v)
    decreases v
  {
    if !v.Null? && !r.sensitive(key) && !r.identifier(key) {
      match v
      case Obj(fields) =>
        var a := RedactValue(r, key, v).fields;
        forall k | k in fields ensures a[k] == fields[k] <==> Clean(r, k, fields[k]) {
          UnchangedIffClean(r, k, fields[k]);
        }
        if Clean(r, key, v) { assert a == fields; }
      case Arr(items) =>
        var a := RedactValue(r, key, v).items;
        forall i | 0 <= i < |items| ensures a[i] == items[i] <==> Clean(r, key, items[i]) {
          UnchangedIffClean(r, key, items[i]);
        }
        if Clean(r, key, v) { assert a == items; }
      case _ =>
    }
  }

  /** An object at the root is redacted throughout or raises; any other root but a list is refused. */
  lemma OtherRoots(r: Rules, payload: Document)
    requires Proper(r) && !payload.Arr?
    ensures RedactPayload(r, payload) ==
            if !payload.Obj? then Err(BadRoot)
            else if RedactRaises(r, [], payload) then Err(NotEncodable)
            else Ok(RedactValue(r, [], payload))
  {
    if payload.Obj? {
      assert RedactValue(r, [], payload) == Obj(RedactRecord(r, payload.fields));
      assert RedactRaises(r, [], payload) <==> RecordRaises(r, payload.fields);
    }
  }

  /**
   A file with a list at its root is redacted throughout exactly when no record raises and each item is an
   object or was clean already: other items, lists of objects among them, are copied as they are.
   */
  lemma ListRootRedactedIff(r: Rules, items: seq<Document>)
    requires Proper(r)
    ensures RedactPayload(r, Arr(items)) == Ok(RedactValue(r, [], Arr(items))) <==>
            && (forall i :: 0 <= i < |items| && items[i].Obj? ==> !RecordRaises(r, items[i].fields))
            && (forall i :: 0 <= i < |items| ==> items[i].Obj? || Clean(r, [], items[i]))
  {
    if RedactPayload(r, Arr(items)).Ok? {
      var a, b := RedactPayload(r, Arr(items)).value.items, RedactValue(r, [], Arr(items)).items;
      forall i | 0 <= i < |items| ensures a[i] == b[i] <==> items[i].Obj? || Clean(r, [], items[i]) {
        UnchangedIffClean(r, [], items[i]);
        if items[i].Obj? { assert RedactValue(r, [], items[i]) == Obj(RedactRecord(r, items[i].fields)); }
      }
      if forall i :: 0 <= i < |items| ==> items[i].Obj? || Clean(r, [], items[i]) { assert a == b; }
    }
  }

  /** A list inside a list is copied unredacted, whatever its objects hold. */
  lemma NestedListCopied(r: Rules, k: Text, secret: Document)
    requires Proper(r) && r.sensitive(k)
    ensures var payload := Arr([Arr([Obj(map[k := secret])])]);
            RedactPayload(r, payload) == Ok(payload)
  {
    var payload := Arr([Arr([Obj(map[k := secret])])]);
    assert RedactPayload(r, payload).value.items == payload.items;
  }
}
