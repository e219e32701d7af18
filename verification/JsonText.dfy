/** Compact JSON. A string holds one character for each byte of UTF-8 text. */
module JsonText {
  import opened Base
  import opened Decimals

  datatype Json =
    | Null
    | Boolean(b: bool)
    | Number(text: string)
    | String(s: string)
    | Array(items: seq<Json>)
    | Object(members: seq<Member>)

  datatype Member = Member(key: string, value: Json)

  // --------------------------------------------------------------------- strings

  function HexDigit(n: nat): char
    requires n < 16
  {
    "0123456789abcdef"[n]
  }

  /** Section 7 of RFC 8259: the short escapes, and `\u00XX` for the other control
      characters. */
  function Escape(c: char): string {
    if c == '\"' then "\\\""
    else if c == '\\' then "\\\\"
    else if c == '\U{8}' then "\\b"
    else if c == '\t' then "\\t"
    else if c == '\n' then "\\n"
    else if c == '\U{C}' then "\\f"
    else if c == '\r' then "\\r"
    else if c < ' ' then "\\u00" + [HexDigit(c as int / 16), HexDigit(c as int % 16)]
    else [c]
  }

  /** A character takes one byte, two when it has a short escape, six when it is any other
      control character. */
  lemma EscapeLengths(c: char)
    ensures |Escape(c)| ==
      if c in "\"\\" || c in {8 as char, 9 as char, 10 as char, 12 as char, 13 as char} then 2
      else if c < 32 as char then 6 else 1
  {
  }

  function Escaped(s: string): string {
    if s == [] then [] else Escaped(s[..|s| - 1]) + Escape(s[|s| - 1])
  }

  function Quoted(s: string): string {
    "\"" + Escaped(s) + "\""
  }

  function HexValue(c: char): Option<nat> {
    if '0' <= c <= '9' then Some(c as int - '0' as int)
    else if 'a' <= c <= 'f' then Some(c as int - 'a' as int + 10)
    else None
  }

  /** Reads one character of a JSON string; only escapes that name one byte. */
  function ReadChar(t: string): (r: Option<(char, string)>)
    ensures r.Some? ==> |r.value.1| < |t|
  {
    if t == [] || t[0] < ' ' || t[0] == '\"' then None
    else if t[0] != '\\' then Some((t[0], t[1..]))
    else if |t| < 2 then None
    else if t[1] in "\"\\/" then Some((t[1], t[2..]))
    else if t[1] == 'b' then Some(('\U{8}', t[2..]))
    else if t[1] == 't' then Some(('\t', t[2..]))
    else if t[1] == 'n' then Some(('\n', t[2..]))
    else if t[1] == 'f' then Some(('\U{C}', t[2..]))
    else if t[1] == 'r' then Some(('\r', t[2..]))
    else if |t| >= 6 && t[1..4] == "u00" && HexValue(t[4]).Some? && HexValue(t[5]).Some? then
      Some(((HexValue(t[4]).value * 16 + HexValue(t[5]).value) as char, t[6..]))
    else None
  }

  /** Reads the inside of a JSON string up to its closing quote. */
  function ReadChars(t: string): Option<(string, string)>
    decreases |t|
  {
    if t != [] && t[0] == '\"' then Some(([], t[1..]))
    else
      match ReadChar(t)
      case None => None
      case Some((c, rest)) =>
        match ReadChars(rest)
        case None => None
        case Some((s, after)) => Some(([c] + s, after))
  }

  lemma ReadEscape(c: char, rest: string)
    ensures ReadChar(Escape(c) + rest) == Some((c, rest))
  {
    var e := Escape(c);
    assert (e + rest)[|e|..] == rest;
    if c < ' ' && |e| == 6 {
      var hi, lo := c as int / 16, c as int % 16;
      assert (e + rest)[1..4] == "u00";
      HexRoundTrip(hi);
      HexRoundTrip(lo);
    }
  }

  lemma HexRoundTrip(n: nat)
    requires n < 16
    ensures HexValue(HexDigit(n)) == Some(n)
  {
  }

  lemma {:induction false} EscapedSnoc(s: string, c: char)
    ensures Escaped(s + [c]) == Escaped(s) + Escape(c)
  {
    assert (s + [c])[..|s|] == s;
  }

  lemma {:induction false} EscapedCons(c: char, s: string)
    ensures Escaped([c] + s) == Escape(c) + Escaped(s)
  {
    if s == [] {
      EscapedSnoc([], c);
      assert [c] + s == [] + [c];
    } else {
      var init, last := s[..|s| - 1], s[|s| - 1];
      assert s == init + [last] && [c] + s == [c] + init + [last];
      EscapedCons(c, init);
      EscapedSnoc(init, last);
      EscapedSnoc([c] + init, last);
      Assoc(Escape(c), Escaped(init), Escape(last));
    }
  }

  lemma {:induction false} ReadEscapeThen(c: char, t: string, s: string, rest: string)
    requires ReadChars(t) == Some((s, rest))
    ensures ReadChars(Escape(c) + t) == Some(([c] + s, rest))
  {
    ReadEscape(c, t);
    assert (Escape(c) + t)[0] == Escape(c)[0];
  }

  lemma {:induction false} ReadEscaped(s: string, rest: string)
    ensures ReadChars(Escaped(s) + ("\"" + rest)) == Some((s, rest))
  {
    if s == [] {
      assert Escaped(s) + ("\"" + rest) == "\"" + rest;
    } else {
      var c, tail := s[0], s[1..];
      assert s == [c] + tail;
      EscapedCons(c, tail);
      ReadEscaped(tail, rest);
      ReadEscapeThen(c, Escaped(tail) + ("\"" + rest), tail, rest);
      Assoc(Escape(c), Escaped(tail), "\"" + rest);
    }
  }

  /** A quoted string reads back as itself and ends at its closing quote. */
  lemma QuotedRoundTrip(s: string, rest: string)
    ensures (Quoted(s) + rest)[0] == '\"'
    ensures ReadChars((Quoted(s) + rest)[1..]) == Some((s, rest))
  {
    ReadEscaped(s, rest);
    assert (Quoted(s) + rest)[1..] == Escaped(s) + ("\"" + rest);
  }

  // ------------------------------------------------------------------------ text

  function Text(j: Json): string {
    match j
    case Null => "null"
    case Boolean(b) => if b then "true" else "false"
    case Number(text) => text
    case String(s) => Quoted(s)
    case Array(items) => "[" + Listed(items) + "]"
    case Object(members) => "{" + Membered(members) + "}"
  }

  function Listed(items: seq<Json>): string {
    if items == [] then []
    else
      var init := items[..|items| - 1];
      Listed(init) + (if init == [] then [] else ",") + Text(items[|items| - 1])
  }

  function Membered(members: seq<Member>): string {
    if members == [] then []
    else
      var init, last := members[..|members| - 1], members[|members| - 1];
      Membered(init) + (if init == [] then [] else ",") + Quoted(last.key) + ":" + Text(last.value)
  }
}
