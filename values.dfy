/**
 * The values a YAML or TOML loader hands back to the scripts, and the two
 * Python operations the scripts apply to them: `key in value` and `str(value)`.
 */
module Values {
  import opened Wrappers
  import opened Text

  /** A loaded document. A mapping keeps its entries in insertion order, as a Python dict does. */
  datatype Value =
    | Null
    | Bool(b: bool)
    | Int(i: int)
    | Str(s: string)
    | List(items: seq<Value>)
    | Mapping(entries: seq<(string, Value)>)

  /** The keys of a mapping, in order. */
  function Keys(entries: seq<(string, Value)>): (r: seq<string>)
    ensures |r| == |entries|
    ensures forall i :: 0 <= i < |entries| ==> r[i] == entries[i].0
  {
    if entries == [] then [] else [entries[0].0] + Keys(entries[1..])
  }

  /** `d.get(key)` on a mapping. */
  function Lookup(entries: seq<(string, Value)>, key: string): (r: Option<Value>)
    ensures r.Some? <==> key in Keys(entries)
  {
    if entries == [] then None
    else if entries[0].0 == key then Some(entries[0].1)
    else Lookup(entries[1..], key)
  }

  /** Python's `sub in s` on strings. */
  predicate Substring(sub: string, s: string)
    decreases |s|
  {
    (|sub| <= |s| && s[..|sub|] == sub) || (s != [] && Substring(sub, s[1..]))
  }

  /** The values on which `key in value` is defined; on the others Python raises TypeError. */
  predicate Searchable(v: Value)
  {
    v.Str? || v.List? || v.Mapping?
  }

  /** Python's `key in value`: a substring test on a string, an element test on a list, a key test on a dict. */
  predicate Has(v: Value, key: string)
    requires Searchable(v)
  {
    match v
    case Str(s) => Substring(key, s)
    case List(items) => Str(key) in items
    case Mapping(entries) => key in Keys(entries)
  }

  /** Python truthiness, as `if metadata:` reads it. */
  predicate Truthy(v: Value)
  {
    match v
    case Null => false
    case Bool(b) => b
    case Int(i) => i != 0
    case Str(s) => s != ""
    case List(items) => items != []
    case Mapping(entries) => entries != []
  }

  function Digit(d: nat): char
    requires d < 10
  {
    "0123456789"[d]
  }

  /** Python's `str(n)` for a natural number. */
  function Decimal(n: nat): string
  {
    if n < 10 then [Digit(n)] else Decimal(n / 10) + [Digit(n % 10)]
  }

  /** Python's `str(value)`, as an f-string interpolates it. */
  function Show(v: Value): string
    decreases v, 1
  {
    match v
    case Str(s) => s
    case _ => Repr(v)
  }

  /** Python's `repr(value)`, used for the elements of lists and dicts. */
  function Repr(v: Value): string
    decreases v, 0
  {
    match v
    case Null => "None"
    case Bool(b) => if b then "True" else "False"
    case Int(i) => if i < 0 then "-" + Decimal(-i) else Decimal(i)
    case Str(s) => StrRepr(s)
    case List(items) =>
      "[" + Join(", ", seq(|items|, k requires 0 <= k < |items| => Repr(items[k]))) + "]"
    case Mapping(entries) =>
      "{" + Join(", ", seq(|entries|, k requires 0 <= k < |entries| =>
        assert entries[k] in entries;
        StrRepr(entries[k].0) + ": " + Repr(entries[k].1))) + "}"
  }

  /** The lower-case hexadecimal digit of `d`. */
  function Hex(d: nat): char
    requires d < 16
  {
    "0123456789abcdef"[d]
  }

  /**
   * The characters `repr` writes as they are: `str.isprintable` over ASCII and Latin-1
   * (the C0 and C1 controls, DEL, the no-break space and the soft hyphen are not);
   * every code point above U+00FF is taken as printable.
   */
  predicate Printable(c: char)
  {
    var n := c as int;
    (0x20 <= n < 0x7f) || (0xa0 < n && n != 0xad)
  }

  /** One character inside a `repr` literal delimited by `q`. */
  function EscapeChar(c: char, q: char): string
  {
    if c == q || c == '\\' then ['\\', c]
    else if c == '\t' then "\\t"
    else if c == '\n' then "\\n"
    else if c == '\r' then "\\r"
    else if Printable(c) then [c]
    else ['\\', 'x', Hex(c as int / 16), Hex(c as int % 16)]
  }

  /** Every character of `s`, escaped for a literal delimited by `q`. */
  function Escaped(s: string, q: char): string
  {
    if s == [] then "" else EscapeChar(s[0], q) + Escaped(s[1..], q)
  }

  /** `repr` quotes with `"` when the string holds a `'` and no `"`, and with `'` otherwise. */
  function Quote(s: string): char
  {
    if '\'' in s && '"' !in s then '"' else '\''
  }

  /** Python's `repr(s)` for a string. */
  function StrRepr(s: string): string
  {
    [Quote(s)] + Escaped(s, Quote(s)) + [Quote(s)]
  }

  predicate IsHex(c: char)
  {
    '0' <= c <= '9' || 'a' <= c <= 'f'
  }

  function HexValue(c: char): (d: nat)
    requires IsHex(c)
    ensures d < 16
  {
    if c <= '9' then (c - '0') as nat else (c - 'a') as nat + 10
  }

  /**
   * Reading back the inside of a literal delimited by `q`, as Python's parser does for
   * the escapes `repr` writes; `None` on a bare `q` or an escape it does not write.
   */
  function Unescaped(t: string, q: char): (r: Option<string>)
    decreases |t|
  {
    if t == [] then Some("")
    else if t[0] == '\\' then
      if |t| >= 2 && (t[1] == q || t[1] == '\\' || t[1] == 't' || t[1] == 'n' || t[1] == 'r') then
        var c := if t[1] == 't' then '\t' else if t[1] == 'n' then '\n' else if t[1] == 'r' then '\r' else t[1];
        match Unescaped(t[2..], q)
        case None => None
        case Some(rest) => Some([c] + rest)
      else if |t| >= 4 && t[1] == 'x' && IsHex(t[2]) && IsHex(t[3]) then
        match Unescaped(t[4..], q)
        case None => None
        case Some(rest) => Some([(HexValue(t[2]) * 16 + HexValue(t[3])) as char] + rest)
      else None
    else if t[0] == q then None
    else
      match Unescaped(t[1..], q)
      case None => None
      case Some(rest) => Some([t[0]] + rest)
  }

  lemma HexRoundTrip(d: nat)
    requires d < 16
    ensures IsHex(Hex(d)) && HexValue(Hex(d)) == d
  {
    assert "0123456789abcdef"[d] == ['0', '1', '2', '3', '4', '5', '6', '7', '8', '9', 'a', 'b', 'c', 'd', 'e', 'f'][d];
  }

  /** Reading back one escaped character. */
  lemma UnescapeChar(c: char, q: char, rest: string)
    requires q == '\'' || q == '"'
    ensures Unescaped(EscapeChar(c, q) + rest, q)
            == (match Unescaped(rest, q) case None => None case Some(r) => Some([c] + r))
  {
    var t := EscapeChar(c, q) + rest;
    if c == q || c == '\\' || c == '\t' || c == '\n' || c == '\r' {
      assert t[2..] == rest;
    } else if Printable(c) {
      assert t[1..] == rest;
    } else {
      HexRoundTrip(c as int / 16);
      HexRoundTrip(c as int % 16);
      assert t[4..] == rest;
    }
  }

  /** Reading back an escaped string gives the string. */
  lemma {:induction false} UnescapeEscaped(s: string, q: char)
    requires q == '\'' || q == '"'
    ensures Unescaped(Escaped(s, q), q) == Some(s)
  {
    if s != [] {
      UnescapeEscaped(s[1..], q);
      UnescapeChar(s[0], q, Escaped(s[1..], q));
      assert [s[0]] + s[1..] == s;
    }
  }

  /**
   * A string's `repr` is a literal opened and closed by the same quote that reads back
   * as the string itself, so distinct strings have distinct `repr`s.
   */
  lemma ReprRoundTrip(s: string)
    ensures var r := StrRepr(s);
            && |r| >= 2 && r[0] == r[|r| - 1] == Quote(s)
            && Unescaped(r[1..|r| - 1], r[0]) == Some(s)
  {
    var r := StrRepr(s);
    assert r[1..|r| - 1] == Escaped(s, Quote(s));
    UnescapeEscaped(s, Quote(s));
  }

  /** No character of `s` is a backslash or one that `repr` writes as an escape. */
  predicate PlainText(s: string)
  {
    forall i :: 0 <= i < |s| ==> Printable(s[i]) && s[i] != '\\'
  }

  /** Plain text without the delimiting quote is written as it is. */
  lemma {:induction false} PlainEscaped(s: string, q: char)
    requires PlainText(s) && q !in s
    ensures Escaped(s, q) == s
  {
    if s != [] {
      assert s[0] in s && Printable(s[0]) && s[0] != '\\';
      assert EscapeChar(s[0], q) == [s[0]];
      assert PlainText(s[1..]) && q !in s[1..] by {
        forall i | 0 <= i < |s[1..]|
          ensures s[1..][i] == s[i + 1]
        {
        }
      }
      PlainEscaped(s[1..], q);
      assert [s[0]] + s[1..] == s;
    }
  }

  /** The escape of one character holds `q` only as the second character of `\q`. */
  lemma EscapedQuoteInChar(c: char, q: char)
    requires q == '\'' || q == '"'
    ensures var h := EscapeChar(c, q);
            forall k :: 0 <= k < |h| && h[k] == q ==> k == 1 && h[0] == '\\'
  {
    if !(c == q || c == '\\' || c == '\t' || c == '\n' || c == '\r' || Printable(c)) {
      HexRoundTrip(c as int / 16);
      HexRoundTrip(c as int % 16);
    }
  }

  /** Inside a literal delimited by `q`, every `q` follows a backslash. */
  lemma {:induction false} QuotesEscaped(s: string, q: char)
    requires q == '\'' || q == '"'
    ensures forall k :: 0 <= k < |Escaped(s, q)| && Escaped(s, q)[k] == q ==> k > 0 && Escaped(s, q)[k - 1] == '\\'
  {
    if s != [] {
      var c := s[0];
      var head := EscapeChar(c, q);
      var rest := Escaped(s[1..], q);
      QuotesEscaped(s[1..], q);
      EscapedQuoteInChar(c, q);
      var e := Escaped(s, q);
      assert e == head + rest;
      forall k | 0 <= k < |e| && e[k] == q
        ensures k > 0 && e[k - 1] == '\\'
      {
        if k >= |head| {
          assert rest[k - |head|] == q;
          assert e[k - 1] == rest[k - 1 - |head|];
        } else {
          assert head[k] == q;
          assert e[k - 1] == head[k - 1];
        }
      }
    }
  }

  /**
   * A string holding `'` and no `"` is quoted with `"`, and its `'`s are left as they are:
   * plain text comes back between double quotes unchanged.
   */
  lemma ReprApostrophe(s: string)
    requires '\'' in s && '"' !in s
    ensures var r := StrRepr(s);
            r[0] == '"' && r[|r| - 1] == '"'
    ensures PlainText(s) ==> StrRepr(s) == "\"" + s + "\""
  {
    if PlainText(s) {
      PlainEscaped(s, '"');
    }
  }

  /**
   * A string holding both quotes keeps `'` as the quote, and every `'` inside the literal
   * is escaped with a backslash.
   */
  lemma ReprBothQuotes(s: string)
    requires '\'' in s && '"' in s
    ensures var r := StrRepr(s);
            && r[0] == '\'' && r[|r| - 1] == '\''
            && forall k :: 1 <= k < |r| - 1 && r[k] == '\'' ==> k > 1 && r[k - 1] == '\\'
  {
    var e := Escaped(s, '\'');
    QuotesEscaped(s, '\'');
    var r := StrRepr(s);
    assert r == ['\''] + e + ['\''];
    forall k | 1 <= k < |r| - 1 && r[k] == '\''
      ensures k > 1 && r[k - 1] == '\\'
    {
      assert e[k - 1] == r[k];
      assert k - 1 > 0 && e[k - 2] == '\\';
      assert r[k - 1] == e[k - 2];
    }
  }
}
