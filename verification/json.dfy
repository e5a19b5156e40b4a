/** The part of `serde_json::to_string` the FFI layer relies on: how a
    `String` and a `Vec<String>` are written as compact JSON, and a reader
    for that output.

    serde_json writes `"` and `\` as `\"` and `\\`, the control characters
    8, 9, 10, 12 and 13 as `\b`, `\t`, `\n`, `\f` and `\r`, every other
    character below 0x20 as `\u00` followed by two lower-case hex digits,
    and all other characters unchanged; array elements are separated by a
    bare comma. */
module Json {
  import opened Base

  const HexDigits: string := "0123456789abcdef"

  /** The lower-case hex digit of `d`. */
  function HexDigit(d: nat): (c: char)
    requires d < 16
    ensures c != '\0' && c != '"' && c != '\\'
  {
    HexDigits[d]
  }

  /** The value of a hex digit, either case. */
  function HexValue(c: char): (r: Option<nat>)
    ensures r.Some? ==> r.value < 16
  {
    if '0' <= c <= '9' then Some(c as int - '0' as int)
    else if 'a' <= c <= 'f' then Some(c as int - 'a' as int + 10)
    else if 'A' <= c <= 'F' then Some(c as int - 'A' as int + 10)
    else None
  }

  /** The JSON text of one character inside a string literal. */
  function EscapeChar(c: char): string
  {
    if c == '"' then "\\\""
    else if c == '\\' then "\\\\"
    else if c as int == 8 then "\\b"
    else if c as int == 9 then "\\t"
    else if c as int == 10 then "\\n"
    else if c as int == 12 then "\\f"
    else if c as int == 13 then "\\r"
    else if c as int < 0x20 then "\\u00" + [HexDigit(c as int / 16), HexDigit(c as int % 16)]
    else [c]
  }

  /** The body of a string literal: every character escaped. */
  function Escape(s: string): string
  {
    if s == [] then [] else EscapeChar(s[0]) + Escape(s[1..])
  }

  /** `serde_json::to_string` of a `String`. */
  function Str(s: string): string
  {
    "\"" + Escape(s) + "\""
  }

  /** The elements of a non-empty array, comma separated. */
  function Elements(xs: seq<string>): string
    requires xs != []
    decreases |xs|
  {
    if |xs| == 1 then Str(xs[0]) else Str(xs[0]) + "," + Elements(xs[1..])
  }

  /** `serde_json::to_string` of a `Vec<String>`. */
  function StrArray(xs: seq<string>): string
  {
    if xs == [] then "[]" else "[" + Elements(xs) + "]"
  }

  // ---------------------------------------------------------------------
  // Reading JSON back

  /** Reads the body of a string literal up to its closing quote, undoing
      the escapes; returns the decoded text and what follows the quote. */
  function ReadBody(s: string): (r: Option<(string, string)>)
    ensures r.Some? ==> |r.value.1| < |s|
    decreases |s|
  {
    if s == [] then None
    else if s[0] == '"' then Some(([], s[1..]))
    else if s[0] == '\\' then
      if |s| < 2 then None
      else if s[1] == 'u' then
        if |s| < 6 then None
        else
          match (HexValue(s[2]), HexValue(s[3]), HexValue(s[4]), HexValue(s[5]))
          case (Some(a), Some(b), Some(c), Some(d)) =>
            var code := ((a * 16 + b) * 16 + c) * 16 + d;
            if 0xD800 <= code < 0xE000 then None
            else Prepend(code as char, ReadBody(s[6..]))
          case _ => None
      else
        match Unescaped(s[1])
        case None => None
        case Some(c) => Prepend(c, ReadBody(s[2..]))
    else if s[0] as int < 0x20 then None
    else Prepend(s[0], ReadBody(s[1..]))
  }

  /** The character a two-character escape `\x` stands for. */
  function Unescaped(x: char): Option<char>
  {
    if x == '"' then Some('"')
    else if x == '\\' then Some('\\')
    else if x == '/' then Some('/')
    else if x == 'b' then Some(8 as char)
    else if x == 't' then Some(9 as char)
    else if x == 'n' then Some(10 as char)
    else if x == 'f' then Some(12 as char)
    else if x == 'r' then Some(13 as char)
    else None
  }

  /** Puts a decoded character in front of the text a read produced. */
  function Prepend(c: char, r: Option<(string, string)>): Option<(string, string)>
  {
    match r
    case None => None
    case Some((body, rest)) => Some(([c] + body, rest))
  }

  /** Puts a decoded element in front of the list a read produced. */
  function PrependElement(x: string, r: Option<seq<string>>): Option<seq<string>>
  {
    match r
    case None => None
    case Some(ys) => Some([x] + ys)
  }

  /** Reads comma-separated string literals up to and including the
      closing bracket, which must end the text. */
  function ReadElements(s: string): Option<seq<string>>
    decreases |s|
  {
    if s == [] || s[0] != '"' then None
    else
      match ReadBody(s[1..])
      case None => None
      case Some((x, rest)) =>
        if rest == "]" then Some([x])
        else if rest != [] && rest[0] == ',' then
          PrependElement(x, ReadElements(rest[1..]))
        else None
  }

  /** Reads a JSON array of strings. */
  function ReadStrArray(s: string): Option<seq<string>>
  {
    if s == "[]" then Some([])
    else if s != [] && s[0] == '[' then ReadElements(s[1..])
    else None
  }

  /** Reads a JSON string. */
  function ReadStr(s: string): Option<string>
  {
    if s != [] && s[0] == '"' then
      match ReadBody(s[1..])
      case Some((x, rest)) => if rest == [] then Some(x) else None
      case None => None
    else None
  }

  // ---------------------------------------------------------------------
  // Properties

  /** No escaped character is the NUL character. */
  lemma EscapeCharNoNul(c: char)
    ensures '\0' !in EscapeChar(c)
  {
  }

  /** An escaped string contains no NUL character. */
  lemma {:induction false} EscapeNoNul(s: string)
    ensures '\0' !in Escape(s)
  {
    if s != [] {
      EscapeCharNoNul(s[0]);
      EscapeNoNul(s[1..]);
    }
  }

  /** The JSON text of a string has no NUL character. */
  lemma StrNoNul(s: string)
    ensures '\0' !in Str(s)
  {
    EscapeNoNul(s);
  }

  /** The JSON text of a list of strings has no NUL character. */
  lemma {:induction false} ElementsNoNul(xs: seq<string>)
    requires xs != []
    ensures '\0' !in Elements(xs)
    decreases |xs|
  {
    StrNoNul(xs[0]);
    if |xs| > 1 {
      ElementsNoNul(xs[1..]);
    }
  }

  /** The JSON text of a list of strings has no NUL character. */
  lemma StrArrayNoNul(xs: seq<string>)
    ensures '\0' !in StrArray(xs)
  {
    if xs != [] {
      ElementsNoNul(xs);
    }
  }

  /** Reading one escaped character back yields that character. */
  lemma ReadEscapeChar(c: char, tail: string)
    ensures ReadBody(EscapeChar(c) + tail) == Prepend(c, ReadBody(tail))
  {
  }

  /** Reading an escaped body followed by a closing quote recovers the
      original text and leaves exactly what follows the quote. */
  lemma {:induction false} ReadEscape(s: string, rest: string)
    ensures ReadBody(Escape(s) + "\"" + rest) == Some((s, rest))
    decreases |s|
  {
    if s == [] {
      assert Escape(s) + "\"" + rest == "\"" + rest;
      assert ("\"" + rest)[1..] == rest;
    } else {
      var tail := Escape(s[1..]) + "\"" + rest;
      assert Escape(s) + "\"" + rest == EscapeChar(s[0]) + tail;
      ReadEscapeChar(s[0], tail);
      ReadEscape(s[1..], rest);
      assert [s[0]] + s[1..] == s;
    }
  }

  /** A JSON string reads back as the string it was written from. */
  lemma ReadStrOfStr(s: string)
    ensures ReadStr(Str(s)) == Some(s)
  {
    ReadEscape(s, []);
    assert Str(s)[1..] == Escape(s) + "\"" + [];
  }

  /** The last element, followed by the closing bracket, reads back as
      itself. */
  lemma ReadLastElement(x: string)
    ensures ReadElements(Str(x) + "]") == Some([x])
  {
    var t := Str(x) + "]";
    assert t[0] == '"';
    assert t[1..] == Escape(x) + "\"" + "]";
    ReadEscape(x, "]");
    assert ReadBody(t[1..]) == Some((x, "]"));
  }

  /** An element followed by a comma is read off, and reading goes on
      after the comma. */
  lemma ReadFrontElement(x: string, tail: string)
    ensures ReadElements(Str(x) + "," + tail) == PrependElement(x, ReadElements(tail))
  {
    var more := "," + tail;
    var t := Str(x) + more;
    assert t == Str(x) + "," + tail;
    assert t[0] == '"';
    assert t[1..] == Escape(x) + "\"" + more;
    ReadEscape(x, more);
    assert ReadBody(t[1..]) == Some((x, more));
    assert more != "]" && more[0] == ',';
    assert more[1..] == tail;
  }

  /** The elements followed by the closing bracket read back as the list. */
  lemma {:induction false} ReadElementsOfElements(xs: seq<string>)
    requires xs != []
    ensures ReadElements(Elements(xs) + "]") == Some(xs)
    decreases |xs|
  {
    var x := xs[0];
    if |xs| == 1 {
      ReadLastElement(x);
      assert [x] == xs;
    } else {
      var tail := Elements(xs[1..]) + "]";
      assert Elements(xs) + "]" == Str(x) + "," + tail;
      ReadFrontElement(x, tail);
      ReadElementsOfElements(xs[1..]);
      assert [x] + xs[1..] == xs;
    }
  }

  /** A JSON array of strings reads back as the list it was written from. */
  lemma ReadStrArrayOfStrArray(xs: seq<string>)
    ensures ReadStrArray(StrArray(xs)) == Some(xs)
  {
    if xs != [] {
      ReadElementsOfElements(xs);
      var t := StrArray(xs);
      assert t[1..] == Elements(xs) + "]";
      assert t[1] == '"';
    }
  }
}
