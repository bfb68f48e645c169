/**
 The text of the NATS accounts block: JSON string literals, re-indentation, and the words and
 punctuation a reader of the file sees.
 */
module NatsText {
  import opened Prelude

  // ------------------------------------------------------------------------------------------
  // JSON string literals, as `json.dumps` writes them (ASCII only, section 7 of RFC 8259).

  function HexDigit(n: nat): char
    requires n < 16
  {
    if n < 10 then '0' + n as char else 'a' + (n - 10) as char
  }

  function Hex4(n: nat): string
    requires n < 0x10000
  {
    [HexDigit(n / 4096), HexDigit(n / 256 % 16), HexDigit(n / 16 % 16), HexDigit(n % 16)]
  }

  function Escape(c: char): string {
    var n := c as int;
    if c == '"' then "\\\""
    else if c == '\\' then "\\\\"
    else if c == '\n' then "\\n"
    else if c == '\r' then "\\r"
    else if c == '\t' then "\\t"
    else if n == 8 then "\\b"
    else if n == 12 then "\\f"
    else if 32 <= n <= 126 then [c]
    else if n < 0x10000 then "\\u" + Hex4(n)
    else "\\u" + Hex4(0xD800 + (n - 0x10000) / 1024) + "\\u" + Hex4(0xDC00 + (n - 0x10000) % 1024)
  }

  function EscapeAll(s: string): string {
    if s == "" then "" else Escape(s[0]) + EscapeAll(s[1..])
  }

  function Quote(s: string): string {
    "\"" + EscapeAll(s) + "\""
  }

  /** The printable ASCII characters other than quote and backslash. */
  predicate IsPlain(s: string) {
    forall i :: 0 <= i < |s| ==> ' ' <= s[i] <= '~' && s[i] != '"' && s[i] != '\\'
  }

  /** Plain text is quoted as it is. */
  lemma {:induction false} QuotePlain(s: string)
    requires IsPlain(s)
    ensures Quote(s) == "\"" + s + "\""
    decreases |s|
  {
    if s != "" {
      QuotePlain(s[1..]);
      assert EscapeAll(s[1..]) == s[1..] by {
        assert Quote(s[1..])[1..|Quote(s[1..])| - 1] == EscapeAll(s[1..]);
      }
      assert Escape(s[0]) == [s[0]] && s == [s[0]] + s[1..];
    }
  }

  /** The characters with a short form; every other one below the space is written as four hexadecimal digits. */
  lemma ShortForms(c: char)
    ensures Escape('"') == "\\\"" && Escape('\\') == "\\\\"
    ensures Escape('\U{8}') == "\\b" && Escape('\U{C}') == "\\f"
    ensures Escape('\n') == "\\n" && Escape('\r') == "\\r" && Escape('\t') == "\\t"
    ensures c < ' ' && c !in "\U{8}\U{C}\n\r\t" ==> Escape(c) == "\\u" + Hex4(c as int)
  {
  }

  function HexValue(c: char): Option<nat> {
    if '0' <= c <= '9' then Some(c as int - '0' as int)
    else if 'a' <= c <= 'f' then Some(c as int - 'a' as int + 10)
    else if 'A' <= c <= 'F' then Some(c as int - 'A' as int + 10)
    else None
  }

  function ReadHex4(s: string): (r: Option<nat>)
    ensures r.Some? ==> |s| >= 4 && r.value < 0x10000
  {
    if |s| < 4 then None
    else
      var a :- HexValue(s[0]);
      var b :- HexValue(s[1]);
      var c :- HexValue(s[2]);
      var d :- HexValue(s[3]);
      Some(4096 * a + 256 * b + 16 * c + d)
  }

  /** The second half of a surrogate pair, for a first half n. */
  function ReadLow(n: nat, s: string): (r: Option<(char, string)>)
    requires 0xD800 <= n < 0xDC00
    ensures r.Some? ==> |r.value.1| < |s|
  {
    if |s| < 6 || s[0] != '\\' || s[1] != 'u' then None
    else
      var m :- ReadHex4(s[2..]);
      if 0xDC00 <= m < 0xE000 then Some(((0x10000 + (n - 0xD800) * 1024 + (m - 0xDC00)) as char, s[6..])) else None
  }

  /** What `\u` stands for, read from the four digits on: one character, or the first half of a pair. */
  function ReadUnicode(s: string): (r: Option<(char, string)>)
    ensures r.Some? ==> |r.value.1| < |s|
  {
    var n :- ReadHex4(s);
    if n < 0xD800 || n >= 0xE000 then Some((n as char, s[4..]))
    else if n < 0xDC00 then ReadLow(n, s[4..])
    else None
  }

  /** The character that a backslash and c stand for. */
  function SimpleEscape(c: char): Option<char> {
    if c == '"' || c == '\\' || c == '/' then Some(c)
    else if c == 'n' then Some('\n')
    else if c == 'r' then Some('\r')
    else if c == 't' then Some('\t')
    else if c == 'b' then Some(8 as char)
    else if c == 'f' then Some(12 as char)
    else None
  }

  /** The character a literal starts with, and what follows it. A raw control character is refused. */
  function ReadChar(s: string): (r: Option<(char, string)>)
    requires s != ""
    ensures r.Some? ==> |r.value.1| < |s|
  {
    if s[0] != '\\' then (if s[0] as int < 32 then None else Some((s[0], s[1..])))
    else if |s| < 2 then None
    else if s[1] == 'u' then ReadUnicode(s[2..])
    else
      var c :- SimpleEscape(s[1]);
      Some((c, s[2..]))
  }

  /** The text up to the closing quote, and what follows it. */
  function ReadText(s: string): (r: Option<(string, string)>)
    ensures r.Some? ==> |r.value.1| < |s|
  {
    if s == "" then None
    else if s[0] == '"' then Some(("", s[1..]))
    else
      var (c, rest) :- ReadChar(s);
      var (text, tail) :- ReadText(rest);
      Some(([c] + text, tail))
  }

  lemma HexRoundTrip(n: nat)
    requires n < 16
    ensures HexValue(HexDigit(n)) == Some(n) && ' ' < HexDigit(n) < '~'
  {
  }

  lemma Base16(n: nat)
    requires n < 0x10000
    ensures n / 4096 < 16
    ensures n == 4096 * (n / 4096) + 256 * (n / 256 % 16) + 16 * (n / 16 % 16) + n % 16
  {
    assert n / 256 == 16 * (n / 4096) + n / 256 % 16;
    assert n / 16 == 16 * (n / 256) + n / 16 % 16;
  }

  lemma Hex4RoundTrip(n: nat, rest: string)
    requires n < 0x10000
    ensures ReadHex4(Hex4(n) + rest) == Some(n)
    ensures forall c :: c in Hex4(n) ==> ' ' <= c <= '~'
  {
    Base16(n);
    var a, b, c, d := n / 4096, n / 256 % 16, n / 16 % 16, n % 16;
    HexRoundTrip(a);
    HexRoundTrip(b);
    HexRoundTrip(c);
    HexRoundTrip(d);
    var s := Hex4(n) + rest;
    assert s[0] == HexDigit(a) && s[1] == HexDigit(b) && s[2] == HexDigit(c) && s[3] == HexDigit(d);
  }

  /** Reading undoes escaping, for every character, surrogate pairs included. */
  lemma EscapeRoundTrip(c: char, rest: string)
    ensures Escape(c) != "" && ReadChar(Escape(c) + rest) == Some((c, rest))
  {
    EscapePrintable(c);
    var n := c as int;
    var s := Escape(c) + rest;
    if n >= 0x10000 {
      PairRoundTrip(c, rest);
    } else if |Escape(c)| == 6 {
      assert s[2..] == Hex4(n) + rest && s[2..][4..] == rest;
      Hex4RoundTrip(n, rest);
    } else if |Escape(c)| == 2 {
      assert s[2..] == rest;
    } else {
      assert s[1..] == rest;
    }
  }

  lemma Halves(n: nat)
    requires 0x10000 <= n < 0x110000
    ensures (n - 0x10000) / 1024 < 1024
    ensures 0x10000 + (n - 0x10000) / 1024 * 1024 + (n - 0x10000) % 1024 == n
  {
  }

  lemma LowRoundTrip(hi: nat, lo: nat, rest: string)
    requires 0xD800 <= hi < 0xDC00 && 0xDC00 <= lo < 0xE000
    ensures ReadLow(hi, "\\u" + Hex4(lo) + rest)
            == Some(((0x10000 + (hi - 0xD800) * 1024 + (lo - 0xDC00)) as char, rest))
  {
    var tail := "\\u" + Hex4(lo) + rest;
    assert tail[2..] == Hex4(lo) + rest && tail[6..] == rest;
    Hex4RoundTrip(lo, rest);
  }

  lemma HighRoundTrip(hi: nat, tail: string)
    requires 0xD800 <= hi < 0xDC00
    ensures ReadChar("\\u" + Hex4(hi) + tail) == ReadLow(hi, tail)
  {
    var s := "\\u" + Hex4(hi) + tail;
    assert s[2..] == Hex4(hi) + tail && s[2..][4..] == tail;
    Hex4RoundTrip(hi, tail);
  }

  lemma PairRoundTrip(c: char, rest: string)
    requires c as int >= 0x10000
    ensures ReadChar(Escape(c) + rest) == Some((c, rest))
  {
    Halves(c as int);
    var hi, lo := 0xD800 + (c as int - 0x10000) / 1024, 0xDC00 + (c as int - 0x10000) % 1024;
    PairSpelled(c, rest, hi, lo);
    HighRoundTrip(hi, "\\u" + Hex4(lo) + rest);
    LowRoundTrip(hi, lo, rest);
  }

  lemma PairSpelled(c: char, rest: string, hi: nat, lo: nat)
    requires c as int >= 0x10000 && hi < 0x10000 && lo < 0x10000
    requires hi == 0xD800 + (c as int - 0x10000) / 1024 && lo == 0xDC00 + (c as int - 0x10000) % 1024
    ensures Escape(c) + rest == "\\u" + Hex4(hi) + ("\\u" + Hex4(lo) + rest)
  {
  }

  lemma EscapePrintable(c: char)
    ensures Escape(c) != "" && Escape(c)[0] != '"' && forall d :: d in Escape(c) ==> ' ' <= d <= '~'
  {
    var n := c as int;
    if n >= 0x10000 {
      Hex4RoundTrip(0xD800 + (n - 0x10000) / 1024, "");
      Hex4RoundTrip(0xDC00 + (n - 0x10000) % 1024, "");
    } else {
      Hex4RoundTrip(n, "");
    }
  }

  /** A quoted string holds printable ASCII only. */
  lemma {:induction false} QuotePrintable(s: string)
    ensures forall c :: c in Quote(s) ==> ' ' <= c <= '~'
    decreases |s|
  {
    if s != "" {
      EscapePrintable(s[0]);
      QuotePrintable(s[1..]);
      assert forall c :: c in EscapeAll(s[1..]) ==> c in Quote(s[1..]);
    }
  }

  /** A quoted string reads back as itself whatever follows it. */
  lemma {:induction false} QuoteRoundTrip(s: string, rest: string)
    ensures ReadText(EscapeAll(s) + "\"" + rest) == Some((s, rest))
    decreases |s|
  {
    var text := EscapeAll(s) + "\"" + rest;
    if s == "" {
      assert text[1..] == rest;
    } else {
      var more := EscapeAll(s[1..]) + "\"" + rest;
      assert text == Escape(s[0]) + more;
      EscapeRoundTrip(s[0], more);
      EscapePrintable(s[0]);
      QuoteRoundTrip(s[1..], rest);
      assert text[0] == Escape(s[0])[0] && [s[0]] + s[1..] == s;
    }
  }

  // ------------------------------------------------------------------------------------------
  // Words and punctuation.

  datatype Token = LBrace | RBrace | LBrack | RBrack | Colon | Comma | Word(w: string) | Text(s: string)

  predicate IsBlank(c: char) {
    c == ' ' || c == '\n' || c == '\t' || c == '\r'
  }

  predicate IsWordChar(c: char) {
    'a' <= c <= 'z' || 'A' <= c <= 'Z' || '0' <= c <= '9' || c == '_' || c == '-' || c == '.' || c == '$'
  }

  function Punctuation(c: char): Option<Token> {
    if c == '{' then Some(LBrace) else if c == '}' then Some(RBrace)
    else if c == '[' then Some(LBrack) else if c == ']' then Some(RBrack)
    else if c == ':' then Some(Colon) else if c == ',' then Some(Comma)
    else None
  }

  /** The length of the word s starts with. */
  function WordLength(s: string): (n: nat)
    ensures n <= |s| && (forall i :: 0 <= i < n ==> IsWordChar(s[i]))
    ensures n < |s| ==> !IsWordChar(s[n])
  {
    if s != "" && IsWordChar(s[0]) then 1 + WordLength(s[1..]) else 0
  }

  function Cat(a: Option<seq<Token>>, b: Option<seq<Token>>): Option<seq<Token>> {
    if a.None? || b.None? then None else Some(a.value + b.value)
  }

  function Lex(s: string): Option<seq<Token>>
    decreases |s|
  {
    if s == "" then Some([])
    else if IsBlank(s[0]) then Lex(s[1..])
    else if Punctuation(s[0]).Some? then Cat(Some([Punctuation(s[0]).value]), Lex(s[1..]))
    else if s[0] == '"' then
      var (text, rest) :- ReadText(s[1..]);
      Cat(Some([Text(text)]), Lex(rest))
    else if IsWordChar(s[0]) then
      var n := WordLength(s);
      Cat(Some([Word(s[..n])]), Lex(s[n..]))
    else None
  }

  // ------------------------------------------------------------------------------------------
  // Re-indentation.

  /** `s.replace("\n", "\n" + pad)`. */
  function Indent(s: string, pad: string): string {
    if s == "" then "" else (if s[0] == '\n' then "\n" + pad else [s[0]]) + Indent(s[1..], pad)
  }

  lemma {:induction false} IndentAppend(a: string, b: string, pad: string)
    ensures Indent(a + b, pad) == Indent(a, pad) + Indent(b, pad)
    decreases |a|
  {
    if a == "" {
      assert a + b == b;
    } else {
      assert (a + b)[1..] == a[1..] + b;
      IndentAppend(a[1..], b, pad);
    }
  }

  /** A prefix without newlines is left alone. */
  lemma IndentSplit(s: string, n: nat, pad: string)
    requires n <= |s| && '\n' !in s[..n]
    ensures Indent(s, pad) == s[..n] + Indent(s[n..], pad)
    decreases n
  {
    if n == 0 {
      assert s[n..] == s;
    } else {
      assert s[0] in s[..n];
      assert s[1..][..n - 1] == s[..n][1..] && s[1..][n - 1..] == s[n..];
      IndentSplit(s[1..], n - 1, pad);
      assert s[..n] == [s[0]] + s[1..][..n - 1];
    }
  }

  lemma ReadHex4Indented(s: string, pad: string)
    ensures ReadHex4(Indent(s, pad)) == ReadHex4(s)
    ensures ReadHex4(s).Some? ==> Indent(s, pad) == s[..4] + Indent(s[4..], pad)
  {
    var t := Indent(s, pad);
    if ReadHex4(s).Some? {
      IndentSplit(s, 4, pad);
    } else {
      HexPrefix(s, pad, 0);
    }
  }

  /** Up to its first character that is not a hexadecimal digit the text is left alone. */
  lemma HexPrefix(s: string, pad: string, k: nat)
    requires k <= 4 && k <= |s| && (forall i :: 0 <= i < k ==> HexValue(s[i]).Some?) && ReadHex4(s).None?
    ensures ReadHex4(Indent(s, pad)).None?
    decreases 4 - k
  {
    IndentSplit(s, k, pad);
    if k < 4 && k < |s| {
      if HexValue(s[k]).Some? {
        HexPrefix(s, pad, k + 1);
      } else {
        assert Indent(s[k..], pad)[0] == s[k];
      }
    }
  }

  /** Reading a character commutes with re-indentation. */
  lemma ReadUnicodeIndented(s: string, pad: string)
    ensures ReadUnicode(Indent(s, pad)) ==
            if ReadUnicode(s).None? then None else Some((ReadUnicode(s).value.0, Indent(ReadUnicode(s).value.1, pad)))
  {
    ReadHex4Indented(s, pad);
    if ReadHex4(s).Some? {
      var n, t := ReadHex4(s).value, Indent(s, pad);
      assert t[4..] == Indent(s[4..], pad);
      if 0xD800 <= n < 0xDC00 {
        ReadLowIndented(n, s[4..], pad);
      }
    }
  }

  /** A backslash and a character that is no newline stay in front. */
  lemma EscapeIndented(s: string, pad: string)
    requires |s| >= 2 && s[0] == '\\'
    ensures |Indent(s, pad)| >= 2 && Indent(s, pad)[0] == s[0] && Indent(s, pad)[1] == s[1]
    ensures s[1] != '\n' ==> Indent(s, pad)[2..] == Indent(s[2..], pad)
  {
    assert Indent(s, pad) == [s[0]] + Indent(s[1..], pad);
    if s[1] != '\n' {
      IndentSplit(s, 2, pad);
      assert Indent(s, pad)[2..] == Indent(s[2..], pad);
    }
  }

  lemma ReadCharIndented(s: string, pad: string)
    requires s != ""
    ensures Indent(s, pad) != "" && Indent(s, pad)[0] == s[0]
    ensures ReadChar(Indent(s, pad)) ==
            if ReadChar(s).None? then None else Some((ReadChar(s).value.0, Indent(ReadChar(s).value.1, pad)))
  {
    if s[0] == '\\' && |s| >= 2 {
      EscapeIndented(s, pad);
      if s[1] == 'u' {
        ReadUnicodeIndented(s[2..], pad);
      }
    }
  }

  lemma ReadLowIndented(n: nat, s: string, pad: string)
    requires 0xD800 <= n < 0xDC00
    ensures ReadLow(n, Indent(s, pad)) ==
            if ReadLow(n, s).None? then None else Some((ReadLow(n, s).value.0, Indent(ReadLow(n, s).value.1, pad)))
  {
    var t := Indent(s, pad);
    if |s| >= 2 && s[0] == '\\' && s[1] == 'u' {
      IndentSplit(s, 2, pad);
      assert t[2..] == Indent(s[2..], pad);
      ReadHex4Indented(s[2..], pad);
      if ReadHex4(s[2..]).Some? {
        assert s[2..][4..] == s[6..] && t[2..][4..] == t[6..];
      }
    } else if |s| >= 2 && s[0] == '\\' {
      assert t == [s[0]] + Indent(s[1..], pad) && t[1] == s[1];
    }
  }

  /** Re-indentation never alters a quoted string: reading one commutes with it. */
  lemma {:induction false} ReadTextIndented(s: string, pad: string)
    ensures ReadText(Indent(s, pad)) ==
            if ReadText(s).None? then None else Some((ReadText(s).value.0, Indent(ReadText(s).value.1, pad)))
    decreases |s|
  {
    if s != "" {
      ReadCharIndented(s, pad);
      if s[0] == '"' {
        assert Indent(s, pad)[1..] == Indent(s[1..], pad);
      } else if ReadChar(s).Some? {
        ReadTextIndented(ReadChar(s).value.1, pad);
      }
    }
  }

  lemma {:induction false} LexBlanks(pad: string, s: string)
    requires forall c :: c in pad ==> IsBlank(c)
    ensures Lex(pad + s) == Lex(s)
    decreases |pad|
  {
    if pad == "" {
      assert pad + s == s;
    } else {
      assert (pad + s)[1..] == pad[1..] + s;
      assert pad[0] in pad;
      LexBlanks(pad[1..], s);
    }
  }

  /** Re-indenting any text by blanks leaves its words, punctuation and quoted strings exactly as they were. */
  lemma {:induction false} IndentKeepsTokens(s: string, pad: string)
    requires forall c :: c in pad ==> IsBlank(c)
    ensures Lex(Indent(s, pad)) == Lex(s)
    decreases |s|
  {
    var t := Indent(s, pad);
    if s == "" {
    } else if s[0] == '\n' {
      assert t[1..] == pad + Indent(s[1..], pad);
      LexBlanks(pad, Indent(s[1..], pad));
      IndentKeepsTokens(s[1..], pad);
    } else {
      assert t[1..] == Indent(s[1..], pad);
      if IsBlank(s[0]) || Punctuation(s[0]).Some? {
        IndentKeepsTokens(s[1..], pad);
      } else if s[0] == '"' {
        ReadTextIndented(s[1..], pad);
        if ReadText(s[1..]).Some? {
          IndentKeepsTokens(ReadText(s[1..]).value.1, pad);
        }
      } else if IsWordChar(s[0]) {
        var n := WordLength(s);
        IndentSplit(s, n, pad);
        var rest := Indent(s[n..], pad);
        assert n < |s| ==> rest[0] == s[n];
        WordThen(s[..n], rest);
        assert t[n..] == rest && t[..n] == s[..n];
        IndentKeepsTokens(s[n..], pad);
      }
    }
  }

  /** A word followed by anything that is not a word character. */
  lemma {:induction false} WordThen(w: string, rest: string)
    requires forall i :: 0 <= i < |w| ==> IsWordChar(w[i])
    requires rest == "" || !IsWordChar(rest[0])
    ensures WordLength(w + rest) == |w|
    decreases |w|
  {
    if w == "" {
      assert w + rest == rest;
    } else {
      assert (w + rest)[1..] == w[1..] + rest;
      WordThen(w[1..], rest);
    }
  }

  // ------------------------------------------------------------------------------------------
  // Putting texts side by side.

  /** Nothing at the seam of a and b reads as one word. */
  predicate Apart(a: string, b: string) {
    a == "" || b == "" || !IsWordChar(a[|a| - 1]) || !IsWordChar(b[0])
  }

  lemma ReadHex4Append(s: string, b: string)
    requires ReadHex4(s).Some?
    ensures ReadHex4(s + b) == ReadHex4(s)
  {
  }

  lemma ReadUnicodeAppend(s: string, b: string)
    requires ReadUnicode(s).Some?
    ensures ReadUnicode(s + b) == Some((ReadUnicode(s).value.0, ReadUnicode(s).value.1 + b))
  {
    ReadHex4Append(s, b);
    assert (s + b)[4..] == s[4..] + b;
    var n := ReadHex4(s).value;
    if 0xD800 <= n < 0xDC00 {
      ReadLowAppend(n, s[4..], b);
    }
  }

  lemma ReadLowAppend(n: nat, s: string, b: string)
    requires 0xD800 <= n < 0xDC00 && ReadLow(n, s).Some?
    ensures ReadLow(n, s + b) == Some((ReadLow(n, s).value.0, ReadLow(n, s).value.1 + b))
  {
    assert (s + b)[2..] == s[2..] + b && (s + b)[6..] == s[6..] + b;
    ReadHex4Append(s[2..], b);
  }

  lemma ReadCharAppend(s: string, b: string)
    requires s != "" && ReadChar(s).Some?
    ensures ReadChar(s + b) == Some((ReadChar(s).value.0, ReadChar(s).value.1 + b))
  {
    if s[0] != '\\' {
      assert (s + b)[1..] == s[1..] + b;
    } else {
      assert (s + b)[2..] == s[2..] + b;
      if s[1] == 'u' {
        ReadUnicodeAppend(s[2..], b);
      }
    }
  }

  lemma {:induction false} ReadTextAppend(s: string, b: string)
    requires ReadText(s).Some?
    ensures ReadText(s + b) == Some((ReadText(s).value.0, ReadText(s).value.1 + b))
    decreases |s|
  {
    if s[0] == '"' {
      assert (s + b)[1..] == s[1..] + b;
    } else {
      ReadCharAppend(s, b);
      ReadTextAppend(ReadChar(s).value.1, b);
    }
  }

  lemma ApartSuffix(a: string, rest: string, b: string)
    requires Apart(a, b) && |rest| < |a| && rest == a[1..][|a| - 1 - |rest|..]
    ensures Apart(rest, b)
  {
    if rest != "" {
      assert rest[|rest| - 1] == a[|a| - 1];
    }
  }

  lemma {:induction false} LexAppend(a: string, b: string)
    requires Lex(a).Some? && Apart(a, b)
    ensures Lex(a + b) == Cat(Lex(a), Lex(b))
    decreases |a|
  {
    var s := a + b;
    if a == "" {
      assert s == b;
      if Lex(b).Some? { assert [] + Lex(b).value == Lex(b).value; }
    } else if IsBlank(a[0]) || Punctuation(a[0]).Some? {
      assert s[1..] == a[1..] + b;
      LexAppend(a[1..], b);
      if Punctuation(a[0]).Some? { CatAssoc([Punctuation(a[0]).value], Lex(a[1..]), Lex(b)); }
    } else if a[0] == '"' {
      assert s[1..] == a[1..] + b;
      ReadTextAppend(a[1..], b);
      var rest := ReadText(a[1..]).value.1;
      ReadTextSuffix(a[1..]);
      ApartSuffix(a, rest, b);
      LexAppend(rest, b);
      CatAssoc([Text(ReadText(a[1..]).value.0)], Lex(rest), Lex(b));
    } else {
      var n := WordLength(a);
      WordStays(a, b);
      LexAppend(a[n..], b);
      CatAssoc([Word(a[..n])], Lex(a[n..]), Lex(b));
    }
  }

  /** The first word of a is still the first word when b follows apart. */
  lemma WordStays(a: string, b: string)
    requires a != "" && Apart(a, b)
    ensures var n := WordLength(a);
            WordLength(a + b) == n && (a + b)[..n] == a[..n] && (a + b)[n..] == a[n..] + b
  {
    var n := WordLength(a);
    assert a + b == a[..n] + (a[n..] + b);
    WordThen(a[..n], a[n..] + b);
  }

  lemma CatAssoc(w: seq<Token>, a: Option<seq<Token>>, b: Option<seq<Token>>)
    ensures Cat(Some(w), Cat(a, b)) == Cat(Cat(Some(w), a), b)
  {
    if a.Some? && b.Some? {
      assert w + (a.value + b.value) == (w + a.value) + b.value;
    }
  }

  lemma ReadCharSuffix(s: string)
    requires s != "" && ReadChar(s).Some?
    ensures var rest := ReadChar(s).value.1; rest == s[|s| - |rest|..]
  {
  }

  lemma {:induction false} ReadTextSuffix(s: string)
    requires ReadText(s).Some?
    ensures var rest := ReadText(s).value.1; rest == s[|s| - |rest|..]
    decreases |s|
  {
    if s[0] != '"' {
      ReadCharSuffix(s);
      ReadTextSuffix(ReadChar(s).value.1);
    }
  }

  /** Every word read is a bare word. */
  predicate IsBare(w: string) {
    w != "" && forall i :: 0 <= i < |w| ==> IsWordChar(w[i])
  }

  lemma {:induction false} WordsAreBare(s: string)
    requires Lex(s).Some?
    ensures forall i :: 0 <= i < |Lex(s).value| && Lex(s).value[i].Word? ==> IsBare(Lex(s).value[i].w)
    decreases |s|
  {
    if s != "" {
      if IsBlank(s[0]) || Punctuation(s[0]).Some? {
        WordsAreBare(s[1..]);
      } else if s[0] == '"' {
        WordsAreBare(ReadText(s[1..]).value.1);
      } else {
        WordsAreBare(s[WordLength(s)..]);
      }
    }
  }

  /** A quoted string is one token. */
  lemma LexQuote(s: string)
    ensures Lex(Quote(s)) == Some([Text(s)])
  {
    QuoteRoundTrip(s, "");
    assert EscapeAll(s) + "\"" + "" == EscapeAll(s) + "\"";
    assert Quote(s)[1..] == EscapeAll(s) + "\"";
    assert [Text(s)] + [] == [Text(s)];
  }

  /** So is a bare word. */
  lemma LexWord(w: string)
    requires IsBare(w)
    ensures Lex(w) == Some([Word(w)])
  {
    WordThen(w, "");
    assert w + "" == w && w[|w|..] == "" && w[..|w|] == w;
    assert [Word(w)] + [] == [Word(w)];
  }

  /** Two texts side by side, with their tokens known. */
  lemma Beside(a: string, ta: seq<Token>, b: string, tb: seq<Token>)
    requires Lex(a) == Some(ta) && Lex(b) == Some(tb) && Apart(a, b)
    ensures Lex(a + b) == Some(ta + tb)
  {
    LexAppend(a, b);
  }

  lemma OnlyBlanks(pad: string)
    requires forall c :: c in pad ==> IsBlank(c)
    ensures Lex(pad) == Some([])
  {
    LexBlanks(pad, "");
    assert pad + "" == pad;
  }

  /** Blanks, a punctuation mark, blanks. */
  lemma OneMark(before: string, c: char, after: string)
    requires (forall d :: d in before + after ==> IsBlank(d)) && Punctuation(c).Some?
    ensures Lex(before + [c] + after) == Some([Punctuation(c).value])
  {
    forall d | d in before ensures IsBlank(d) { assert d in before + after; }
    forall d | d in after ensures IsBlank(d) { assert d in before + after; }
    assert before + [c] + after == before + ([c] + after);
    LexBlanks(before, [c] + after);
    OnlyBlanks(after);
    assert ([c] + after)[1..] == after;
    assert [Punctuation(c).value] + [] == [Punctuation(c).value];
  }

  /** A bare word between two texts that neither end nor begin with word characters. */
  lemma WordBetween(a: string, ta: seq<Token>, w: string, b: string, tb: seq<Token>)
    requires Lex(a) == Some(ta) && Lex(b) == Some(tb) && IsBare(w)
    requires (a == "" || !IsWordChar(a[|a| - 1])) && (b == "" || !IsWordChar(b[0]))
    ensures Lex(a + w + b) == Some(ta + [Word(w)] + tb)
  {
    LexWord(w);
    Beside(a, ta, w, [Word(w)]);
    Beside(a + w, ta + [Word(w)], b, tb);
  }
}
