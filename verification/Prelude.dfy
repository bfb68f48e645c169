/** Small shared vocabulary: optional values and the string operations of Python's `str`. */
module Prelude {

  datatype Option<+T> = None | Some(value: T) {
    predicate IsFailure() {
      None?
    }

    function PropagateFailure<U>(): Option<U>
      requires None?
    {
      None
    }

    function Extract(): T
      requires Some?
    {
      value
    }
  }

  datatype Result<+T, +E> = Ok(value: T) | Err(error: E)

  predicate OccursAt(needle: string, hay: string, i: int) {
    0 <= i <= |hay| - |needle| && hay[i..i + |needle|] == needle
  }

  /** `needle in hay`. */
  predicate Occurs(needle: string, hay: string) {
    exists i | 0 <= i <= |hay| :: OccursAt(needle, hay, i)
  }

  /** `sep.join(items)`. */
  function Join(items: seq<string>, sep: string): string {
    if items == [] then ""
    else if |items| == 1 then items[0]
    else items[0] + sep + Join(items[1..], sep)
  }

  /** The characters `str.strip()` removes. */
  predicate IsSpace(c: char) {
    var n := c as int;
    9 <= n <= 13 || 28 <= n <= 32 || n == 0x85 || n == 0xA0 || n == 0x1680 || 0x2000 <= n <= 0x200A
    || n == 0x2028 || n == 0x2029 || n == 0x202F || n == 0x205F || n == 0x3000
  }

  lemma SpacesAre(c: char)
    ensures IsSpace(c) <==>
            || c == '\t' || c == '\n' || c == '\U{0B}' || c == '\U{0C}' || c == '\r' || c == ' '
            || c == '\U{1C}' || c == '\U{1D}' || c == '\U{1E}' || c == '\U{1F}'
            || c == '\U{85}' || c == '\U{A0}' || c == '\U{1680}' || '\U{2000}' <= c <= '\U{200A}'
            || c == '\U{2028}' || c == '\U{2029}' || c == '\U{202F}' || c == '\U{205F}' || c == '\U{3000}'
  {
  }

  function StripLeft(s: string): string {
    if s != "" && IsSpace(s[0]) then StripLeft(s[1..]) else s
  }

  function StripRight(s: string): string {
    if s != "" && IsSpace(s[|s| - 1]) then StripRight(s[..|s| - 1]) else s
  }

  /** `str.strip()`. */
  function Strip(s: string): string {
    StripRight(StripLeft(s))
  }

  /** t stands in s at i, with nothing but spaces around it and none at its own ends. */
  predicate TrimAt(t: string, s: string, i: int) {
    && OccursAt(t, s, i)
    && (forall k | 0 <= k < i :: IsSpace(s[k])) && (forall k | i + |t| <= k < |s| :: IsSpace(s[k]))
    && (t != "" ==> !IsSpace(t[0]) && !IsSpace(t[|t| - 1]))
  }

  /** t is what is left of s without the spaces at its two ends. */
  predicate IsTrimOf(t: string, s: string) {
    exists i | 0 <= i <= |s| :: TrimAt(t, s, i)
  }

  lemma {:induction false} StripLeftTakes(s: string)
    ensures |StripLeft(s)| <= |s| && StripLeft(s) == s[|s| - |StripLeft(s)|..]
    ensures forall k :: 0 <= k < |s| - |StripLeft(s)| ==> IsSpace(s[k])
    ensures StripLeft(s) != "" ==> !IsSpace(StripLeft(s)[0])
    decreases |s|
  {
    if s != "" && IsSpace(s[0]) {
      StripLeftTakes(s[1..]);
      var n := |s| - |StripLeft(s)|;
      forall k | 0 <= k < n ensures IsSpace(s[k]) {
        if k > 0 { assert s[k] == s[1..][k - 1]; }
      }
    }
  }

  lemma {:induction false} StripRightTakes(s: string)
    ensures |StripRight(s)| <= |s| && StripRight(s) == s[..|StripRight(s)|]
    ensures forall k :: |StripRight(s)| <= k < |s| ==> IsSpace(s[k])
    ensures StripRight(s) != "" ==> !IsSpace(StripRight(s)[|StripRight(s)| - 1])
    decreases |s|
  {
    if s != "" && IsSpace(s[|s| - 1]) {
      StripRightTakes(s[..|s| - 1]);
    }
  }

  lemma StripTrims(s: string)
    ensures IsTrimOf(Strip(s), s)
  {
    var l, t := StripLeft(s), Strip(s);
    StripLeftTakes(s);
    StripRightTakes(l);
    var i := |s| - |l|;
    assert t == l[..|t|] == s[i..][..|t|] == s[i..i + |t|];
    forall k | i + |t| <= k < |s| ensures IsSpace(s[k]) {
      assert s[k] == l[k - i];
    }
    if t != "" {
      assert t[0] == l[0];
    }
    assert TrimAt(t, s, i);
  }

  /** There is only one such text. */
  lemma TrimUnique(t: string, u: string, s: string)
    requires IsTrimOf(t, s) && IsTrimOf(u, s)
    ensures t == u
  {
    var i :| 0 <= i <= |s| && TrimAt(t, s, i);
    var j :| 0 <= j <= |s| && TrimAt(u, s, j);
    if t != "" {
      assert !IsSpace(s[i]) && !IsSpace(s[i + |t| - 1]);
    }
    if u != "" {
      assert !IsSpace(s[j]) && !IsSpace(s[j + |u| - 1]);
    }
  }

  lemma StripIff(t: string, s: string)
    ensures Strip(s) == t <==> IsTrimOf(t, s)
  {
    StripTrims(s);
    if IsTrimOf(t, s) {
      TrimUnique(t, Strip(s), s);
    }
  }

  /** A text has something left exactly when some character is no space. */
  lemma TrimEmptyIff(s: string)
    ensures Strip(s) == "" <==> forall k :: 0 <= k < |s| ==> IsSpace(s[k])
  {
    StripTrims(s);
    if Strip(s) != "" {
      var t := Strip(s);
      var i :| 0 <= i <= |s| && TrimAt(t, s, i);
      assert s[i] == t[0] && !IsSpace(s[i]);
    }
  }

  predicate StartsWith(s: string, p: string) {
    |p| <= |s| && s[..|p|] == p
  }

  predicate EndsWith(s: string, p: string) {
    |p| <= |s| && s[|s| - |p|..] == p
  }

  lemma {:induction false} SubsetSize<A>(a: set<A>, b: set<A>)
    requires a <= b
    ensures |a| <= |b|
  {
    assert b == a + (b - a);
  }

  lemma {:induction false} Greatest(s: set<nat>) returns (m: nat)
    requires s != {}
    ensures m in s && forall n :: n in s ==> n <= m
    decreases |s|
  {
    m :| m in s;
    var rest := s - {m};
    assert s == rest + {m};
    if rest != {} {
      var k := Greatest(rest);
      m := if k > m then k else m;
    }
  }
}
