/**
 The canonical JSON printer of canonical.py, and the parser that inverts it.

 The digests, content ids and signatures of the whole repository are taken over
 this text, so "equal digests mean equal documents" rests on unique decodability
 (`Decodes`, `TextInjective`), on UTF-8, and on an injective hash.
 */
module Canonical {
  import opened Wrappers
  import opened Ordering
  import opened Text

  datatype Json =
    | Null
    | Bool(b: bool)
    | Num(n: int)
    | Str(s: string)
    | Arr(items: seq<Json>)
    | Obj(members: map<string, Json>)

  const MAX_SAFE_INTEGER: int := 0x1F_FFFF_FFFF_FFFF

  // ---- printing ----

  function HexDigit(n: nat): char
    requires n < 16
  {
    if n < 10 then '0' + n as char else 'a' + (n - 10) as char
  }

  /** `"%04x" % n` */
  function Hex4(n: nat): string
    requires n < 0x10000
  {
    [HexDigit(n / 0x1000), HexDigit(n / 0x100 % 16), HexDigit(n / 16 % 16), HexDigit(n % 16)]
  }

  predicate MustEscape(c: char) {
    c == '"' || c == '\\' || (c as int) < 0x20 || c == '\U{2028}' || c == '\U{2029}'
  }

  function Escape(c: char): string
    requires MustEscape(c)
  {
    if c == '"' then "\\\""
    else if c == '\\' then "\\\\"
    else if c == '\U{8}' then "\\b"
    else if c == '\U{c}' then "\\f"
    else if c == '\n' then "\\n"
    else if c == '\r' then "\\r"
    else if c == '\t' then "\\t"
    else "\\u" + Hex4(c as int)
  }

  function Escaped(s: string): string {
    if s == "" then ""
    else (if MustEscape(s[0]) then Escape(s[0]) else [s[0]]) + Escaped(s[1..])
  }

  function StringText(s: string): string {
    "\"" + (Escaped(s) + "\"")
  }

  function Digits(n: nat): string {
    if n < 10 then ['0' + n as char] else Digits(n / 10) + ['0' + (n % 10) as char]
  }

  function NumberText(n: int): string {
    if n < 0 then "-" + Digits(-n) else Digits(n)
  }

  /** The members of an object in the order of their UTF-16 code units. */
  function MemberNames(m: map<string, Json>): (r: seq<string>)
    ensures forall k :: k in r <==> k in m
    ensures StrictlySorted(r, Utf16)
  {
    Utf16Distinct(m.Keys);
    SortedSet(m.Keys, Utf16)
  }

  function JsonText(v: Json): string
    decreases v, 0
  {
    match v
    case Null => "null"
    case Bool(b) => if b then "true" else "false"
    case Num(n) => NumberText(n)
    case Str(s) => StringText(s)
    case Arr(items) => "[" + ((if items == [] then "" else ItemsText(items)) + "]")
    case Obj(m) =>
      var names := MemberNames(m);
      "{" + ((if names == [] then "" else MembersText(v, names)) + "}")
  }

  /** The items of a non-empty array joined by commas. */
  function ItemsText(items: seq<Json>): string
    requires items != []
    decreases items
  {
    JsonText(items[0]) + (if |items| == 1 then "" else "," + ItemsText(items[1..]))
  }

  /** The named members of the object `v` joined by commas. */
  function MembersText(v: Json, names: seq<string>): string
    requires v.Obj? && names != [] && forall k :: k in names ==> k in v.members
    decreases v, 0, |names|
  {
    StringText(names[0]) + (":" + (JsonText(v.members[names[0]])
    + (if |names| == 1 then "" else "," + MembersText(v, names[1..]))))
  }

  // ---- parsing ----

  predicate IsDigit(c: char) {
    '0' <= c <= '9'
  }

  predicate StartsWithDigit(s: string) {
    s != "" && IsDigit(s[0])
  }

  /** The number of digits `s` starts with. */
  function DigitSpan(s: string): (n: nat)
    ensures n <= |s| && forall i :: 0 <= i < n ==> IsDigit(s[i])
  {
    if StartsWithDigit(s) then 1 + DigitSpan(s[1..]) else 0
  }

  function DigitsValue(s: string): nat
    requires forall i :: 0 <= i < |s| ==> IsDigit(s[i])
  {
    if s == "" then 0
    else
      assert IsDigit(s[|s| - 1]);
      DigitsValue(s[..|s| - 1]) * 10 + (s[|s| - 1] as int - '0' as int)
  }

  function HexValue(c: char): Option<nat> {
    if IsDigit(c) then Some(c as int - '0' as int)
    else if 'a' <= c <= 'f' then Some(c as int - 'a' as int + 10)
    else None
  }

  /** A `\uXXXX` escape of a scalar below the surrogate range. */
  function ParseHex4(s: string): Option<char>
    requires |s| >= 4
  {
    match (HexValue(s[0]), HexValue(s[1]), HexValue(s[2]), HexValue(s[3]))
    case (Some(a), Some(b), Some(c), Some(d)) =>
      var n := a * 0x1000 + b * 0x100 + c * 16 + d;
      if n < 0xD800 then Some(n as char) else None
    case _ => None
  }

  /** One escape sequence after its backslash: the character and the length of the sequence. */
  function ParseEscape(s: string): (r: Option<(char, nat)>)
    ensures r.Some? ==> 1 <= r.value.1 <= |s|
  {
    if s == "" then None
    else if s[0] == '"' || s[0] == '\\' then Some((s[0], 1))
    else if s[0] == 'b' then Some(('\U{8}', 1))
    else if s[0] == 'f' then Some(('\U{c}', 1))
    else if s[0] == 'n' then Some(('\n', 1))
    else if s[0] == 'r' then Some(('\r', 1))
    else if s[0] == 't' then Some(('\t', 1))
    else if s[0] == 'u' && |s| >= 5 then
      match ParseHex4(s[1..])
      case Some(c) => Some((c, 5))
      case None => None
    else None
  }

  /** Characters up to the closing quote; yields the string and what follows the quote. */
  function ParseChars(s: string): (r: Option<(string, string)>)
    ensures r.Some? ==> |r.value.1| < |s|
    decreases |s|
  {
    if s == "" then None
    else if s[0] == '"' then Some(("", s[1..]))
    else if s[0] == '\\' then
      match ParseEscape(s[1..])
      case None => None
      case Some((c, n)) => PrependChar(c, ParseChars(s[1 + n..]))
    else PrependChar(s[0], ParseChars(s[1..]))
  }

  function PrependChar(c: char, r: Option<(string, string)>): Option<(string, string)> {
    match r
    case None => None
    case Some((t, rest)) => Some(([c] + t, rest))
  }

  function ParseNumber(s: string): (r: Option<(Json, string)>)
    ensures r.Some? ==> |r.value.1| < |s|
  {
    var negative := s != "" && s[0] == '-';
    var body := if negative then s[1..] else s;
    var n := DigitSpan(body);
    if n == 0 then None
    else
      var magnitude: int := DigitsValue(body[..n]);
      Some((Num(if negative then -magnitude else magnitude), body[n..]))
  }

  function ParseLiteral(s: string, word: string, v: Json): (r: Option<(Json, string)>)
    requires word != ""
    ensures r.Some? ==> |r.value.1| < |s|
  {
    if word <= s then Some((v, s[|word|..])) else None
  }

  function ParseString(s: string): (r: Option<(Json, string)>)
    requires s != ""
    ensures r.Some? ==> |r.value.1| < |s|
  {
    match ParseChars(s[1..])
    case None => None
    case Some((t, rest)) => Some((Str(t), rest))
  }

  function ParseValue(s: string): (r: Option<(Json, string)>)
    ensures r.Some? ==> |r.value.1| < |s|
    decreases |s|, 1
  {
    if s == "" then None
    else if s[0] == 'n' then ParseLiteral(s, "null", Null)
    else if s[0] == 't' then ParseLiteral(s, "true", Bool(true))
    else if s[0] == 'f' then ParseLiteral(s, "false", Bool(false))
    else if s[0] == '"' then ParseString(s)
    else if s[0] == '[' then ParseArray(s)
    else if s[0] == '{' then ParseObject(s)
    else ParseNumber(s)
  }

  function ParseArray(s: string): (r: Option<(Json, string)>)
    requires s != ""
    ensures r.Some? ==> |r.value.1| < |s|
    decreases |s|, 0
  {
    if 1 < |s| && s[1] == ']' then Some((Arr([]), s[2..]))
    else
      match ParseItems(s[1..])
      case None => None
      case Some((items, rest)) => Some((Arr(items), rest))
  }

  function ParseObject(s: string): (r: Option<(Json, string)>)
    requires s != ""
    ensures r.Some? ==> |r.value.1| < |s|
    decreases |s|, 0
  {
    if 1 < |s| && s[1] == '}' then Some((Obj(map[]), s[2..]))
    else
      match ParseMembers(s[1..])
      case None => None
      case Some((members, rest)) => Some((Obj(members), rest))
  }

  /** A value, then either `,` and more items or the closing bracket. */
  function ParseItems(s: string): (r: Option<(seq<Json>, string)>)
    ensures r.Some? ==> |r.value.1| < |s|
    decreases |s|, 3
  {
    match ParseValue(s)
    case None => None
    case Some((v, rest)) =>
      if rest == "" then None
      else if rest[0] == ']' then Some(([v], rest[1..]))
      else if rest[0] == ',' then
        match ParseItems(rest[1..])
        case None => None
        case Some((items, rest')) => Some(([v] + items, rest'))
      else None
  }

  /** A quoted name, `:`, a value, then either `,` and more members or the closing brace. */
  function ParseMembers(s: string): (r: Option<(map<string, Json>, string)>)
    ensures r.Some? ==> |r.value.1| < |s|
    decreases |s|, 3
  {
    if s == "" || s[0] != '"' then None
    else
      match ParseChars(s[1..])
      case None => None
      case Some((name, rest)) =>
        if rest == "" || rest[0] != ':' then None
        else
          match ParseValue(rest[1..])
          case None => None
          case Some((v, rest')) => ParseMoreMembers(name, v, rest')
  }

  function ParseMoreMembers(name: string, v: Json, s: string): (r: Option<(map<string, Json>, string)>)
    ensures r.Some? ==> |r.value.1| < |s|
    decreases |s|, 4
  {
    if s == "" then None
    else if s[0] == '}' then Some((map[name := v], s[1..]))
    else if s[0] == ',' then
      match ParseMembers(s[1..])
      case None => None
      case Some((members, rest)) =>
        if name in members then None else Some((members[name := v], rest))
    else None
  }

  // ---- the parser inverts the printer ----

  lemma {:induction false} DigitsShape(n: nat)
    ensures Digits(n) != "" && forall i :: 0 <= i < |Digits(n)| ==> IsDigit(Digits(n)[i])
    ensures DigitsValue(Digits(n)) == n
  {
    if n >= 10 {
      DigitsShape(n / 10);
      assert Digits(n)[..|Digits(n)| - 1] == Digits(n / 10);
    }
  }

  lemma {:induction false} DigitSpanOf(p: string, rest: string)
    requires forall i :: 0 <= i < |p| ==> IsDigit(p[i])
    requires !StartsWithDigit(rest)
    ensures DigitSpan(p + rest) == |p|
  {
    if p == "" { assert p + rest == rest; }
    else {
      assert (p + rest)[1..] == p[1..] + rest;
      DigitSpanOf(p[1..], rest);
    }
  }

  lemma NumberDecodes(n: int, rest: string)
    requires !StartsWithDigit(rest)
    ensures ParseNumber(NumberText(n) + rest) == Some((Num(n), rest))
    ensures NumberText(n) != "" && (NumberText(n)[0] == '-' || IsDigit(NumberText(n)[0]))
  {
    var m := if n < 0 then -n else n;
    DigitsShape(m);
    DigitSpanOf(Digits(m), rest);
    var s := NumberText(n) + rest;
    assert (Digits(m) + rest)[..|Digits(m)|] == Digits(m);
    assert (Digits(m) + rest)[|Digits(m)|..] == rest;
    if n < 0 { assert s[1..] == Digits(m) + rest; }
  }

  lemma {:induction false} Hex4Decodes(n: nat, rest: string)
    requires n < 0xD800
    ensures ParseHex4(Hex4(n) + rest) == Some(n as char)
  {
    var s := Hex4(n) + rest;
    assert s[0] == HexDigit(n / 0x1000) && s[1] == HexDigit(n / 0x100 % 16);
    assert s[2] == HexDigit(n / 16 % 16) && s[3] == HexDigit(n % 16);
    assert n / 16 / 16 == n / 0x100 && n / 0x100 / 16 == n / 0x1000;
  }

  lemma {:induction false} EscapeDecodes(c: char, rest: string)
    requires MustEscape(c)
    ensures Escape(c)[0] == '\\'
    ensures ParseEscape(Escape(c)[1..] + rest) == Some((c, |Escape(c)| - 1))
  {
    if c !in {'"', '\\', '\U{8}', '\U{c}', '\n', '\r', '\t'} {
      HexEscapeDecodes(c, rest);
    } else {
      assert |Escape(c)| == 2 && Escape(c)[1..] == [Escape(c)[1]];
    }
  }

  lemma HexEscapeDecodes(c: char, rest: string)
    requires (c as int) < 0xD800
    ensures ("\\u" + Hex4(c as int))[0] == '\\'
    ensures ParseEscape(("\\u" + Hex4(c as int))[1..] + rest) == Some((c, 5))
  {
    var t := ("\\u" + Hex4(c as int))[1..] + rest;
    assert t[0] == 'u' && t[1..] == Hex4(c as int) + rest;
    Hex4Decodes(c as int, rest);
  }

  lemma {:induction false} EscapedCharDecodes(c: char, tail: string)
    requires MustEscape(c)
    ensures ParseChars(Escape(c) + tail) == PrependChar(c, ParseChars(tail))
  {
    EscapeDecodes(c, tail);
    var t := Escape(c) + tail;
    assert t[0] == '\\';
    assert t[1..] == Escape(c)[1..] + tail;
    assert t[|Escape(c)|..] == tail;
  }

  lemma PlainCharDecodes(c: char, tail: string)
    requires !MustEscape(c)
    ensures ParseChars([c] + tail) == PrependChar(c, ParseChars(tail))
  {
    assert ([c] + tail)[1..] == tail;
  }

  lemma {:induction false} CharsDecode(s: string, rest: string)
    ensures ParseChars(Escaped(s) + ("\"" + rest)) == Some((s, rest))
  {
    var close := "\"" + rest;
    if s == "" {
      assert "" + close == close;
      DropFirst("\"", rest);
    } else {
      CharsDecode(s[1..], rest);
      var c, tail := s[0], Escaped(s[1..]) + close;
      if MustEscape(c) {
        Associate(Escape(c), Escaped(s[1..]), close);
        EscapedCharDecodes(c, tail);
      } else {
        Associate([c], Escaped(s[1..]), close);
        PlainCharDecodes(c, tail);
      }
      assert s == [c] + s[1..];
    }
  }

  lemma Associate(a: string, b: string, c: string)
    ensures (a + b) + c == a + (b + c)
  {
  }

  lemma DropFirst(c: string, tail: string)
    requires |c| == 1
    ensures (c + tail)[0] == c[0] && (c + tail)[1..] == tail
  {
  }

  /** Printing `v` and parsing it back yields `v` and leaves whatever followed it. */
  lemma {:induction false} Decodes(v: Json, rest: string)
    requires !StartsWithDigit(rest)
    ensures JsonText(v) != "" && JsonText(v)[0] !in {']', '}'}
    ensures ParseValue(JsonText(v) + rest) == Some((v, rest))
    decreases v, 2
  {
    match v
    case Arr(items) =>
      ArrayDecodes(items, rest);
      ValueStep(JsonText(v) + rest);
    case Obj(m) =>
      ObjectDecodes(v, rest);
      ValueStep(JsonText(v) + rest);
    case _ => ScalarDecodes(v, rest);
  }

  lemma LiteralDecodes(word: string, v: Json, rest: string)
    requires word != ""
    ensures ParseLiteral(word + rest, word, v) == Some((v, rest))
  {
    assert word <= word + rest;
    assert (word + rest)[|word|..] == rest;
  }

  lemma QuotedDecodes(t: string, rest: string)
    ensures (StringText(t) + rest)[0] == '"'
    ensures ParseChars((StringText(t) + rest)[1..]) == Some((t, rest))
  {
    var body := Escaped(t) + "\"";
    Associate("\"", body, rest);
    Associate(Escaped(t), "\"", rest);
    DropFirst("\"", body + rest);
    CharsDecode(t, rest);
  }

  lemma ScalarDecodes(v: Json, rest: string)
    requires !v.Arr? && !v.Obj? && !StartsWithDigit(rest)
    ensures JsonText(v) != "" && JsonText(v)[0] !in {']', '}'}
    ensures ParseValue(JsonText(v) + rest) == Some((v, rest))
  {
    match v
    case Null => LiteralDecodes("null", Null, rest);
    case Bool(b) =>
      if b { LiteralDecodes("true", v, rest); }
      else { LiteralDecodes("false", v, rest); }
    case Num(n) => NumberDecodes(n, rest);
    case Str(t) => QuotedDecodes(t, rest);
  }

  // The structural steps below speak of arbitrary texts, so that only the parser is unfolded in them.

  lemma ArrayStep(body: string, items: seq<Json>, rest: string)
    requires body != "" && body[0] != ']'
    requires ParseItems(body + ("]" + rest)) == Some((items, rest))
    ensures ParseArray(("[" + (body + "]")) + rest) == Some((Arr(items), rest))
  {
    Associate("[", body + "]", rest);
    Associate(body, "]", rest);
    DropFirst("[", body + ("]" + rest));
    assert (body + ("]" + rest))[0] == body[0];
  }

  lemma ValueStep(s: string)
    requires s != ""
    ensures s[0] == '[' ==> ParseValue(s) == ParseArray(s)
    ensures s[0] == '{' ==> ParseValue(s) == ParseObject(s)
  {
  }

  lemma EmptyArrayStep(rest: string)
    ensures ParseArray(("[" + ("" + "]")) + rest) == Some((Arr([]), rest))
  {
    var s := ("[" + ("" + "]")) + rest;
    assert s[1] == ']' && s[2..] == rest;
  }

  lemma ItemStep(text: string, v: Json, more: string)
    requires more != "" && ParseValue(text + more) == Some((v, more))
    ensures more[0] == ']' ==> ParseItems(text + more) == Some(([v], more[1..]))
    ensures more[0] == ',' ==>
      ParseItems(text + more) == match ParseItems(more[1..])
                                 case None => None
                                 case Some((items, rest)) => Some(([v] + items, rest))
  {
  }

  lemma LastItemStep(text: string, v: Json, rest: string)
    requires ParseValue(text + ("]" + rest)) == Some((v, "]" + rest))
    ensures ParseItems(text + ("]" + rest)) == Some(([v], rest))
  {
    DropFirst("]", rest);
    ItemStep(text, v, "]" + rest);
  }

  lemma NextItemStep(text: string, v: Json, tail: string, items: seq<Json>, rest: string)
    requires ParseValue(text + ("," + tail)) == Some((v, "," + tail)) && ParseItems(tail) == Some((items, rest))
    ensures ParseItems(text + ("," + tail)) == Some(([v] + items, rest))
  {
    DropFirst(",", tail);
    ItemStep(text, v, "," + tail);
  }

  lemma {:induction false} ObjectStep(body: string, m: map<string, Json>, rest: string)
    requires body != "" && body[0] == '"'
    requires ParseMembers(body + ("}" + rest)) == Some((m, rest))
    ensures ParseObject(("{" + (body + "}")) + rest) == Some((Obj(m), rest))
  {
    Associate("{", body + "}", rest);
    Associate(body, "}", rest);
    DropFirst("{", body + ("}" + rest));
    assert (body + ("}" + rest))[0] == body[0];
  }

  lemma EmptyObjectStep(rest: string)
    ensures ParseObject(("{" + ("" + "}")) + rest) == Some((Obj(map[]), rest))
  {
    var s := ("{" + ("" + "}")) + rest;
    assert s[1] == '}' && s[2..] == rest;
  }

  lemma MemberStep(quoted: string, name: string, text: string, v: Json, after: string)
    requires var s := quoted + (":" + (text + after));
      s != "" && s[0] == '"' && ParseChars(s[1..]) == Some((name, ":" + (text + after)))
    requires ParseValue(text + after) == Some((v, after))
    ensures ParseMembers(quoted + (":" + (text + after))) == ParseMoreMembers(name, v, after)
  {
    DropFirst(":", text + after);
  }

  lemma LastMemberStep(name: string, value: Json, rest: string)
    ensures ParseMoreMembers(name, value, "}" + rest) == Some((map[name := value], rest))
  {
    DropFirst("}", rest);
  }

  lemma NextMemberStep(name: string, value: Json, tail: string, members: map<string, Json>, rest: string)
    requires ParseMembers(tail) == Some((members, rest)) && name !in members
    ensures ParseMoreMembers(name, value, "," + tail) == Some((members[name := value], rest))
  {
    DropFirst(",", tail);
  }

  lemma {:induction false} ArrayDecodes(items: seq<Json>, rest: string)
    ensures ParseArray(JsonText(Arr(items)) + rest) == Some((Arr(items), rest))
    decreases items, 1
  {
    if items == [] {
      EmptyArrayStep(rest);
    } else {
      ItemsDecode(items, rest);
      ArrayStep(ItemsText(items), items, rest);
    }
  }

  lemma {:induction false} ItemsDecode(items: seq<Json>, rest: string)
    requires items != []
    ensures ItemsText(items) != "" && ItemsText(items)[0] != ']'
    ensures ParseItems(ItemsText(items) + ("]" + rest)) == Some((items, rest))
    decreases items, 0
  {
    var first, close := JsonText(items[0]), "]" + rest;
    if |items| == 1 {
      Decodes(items[0], close);
      LastItemStep(first, items[0], rest);
      Associate(first, "", close);
      assert "" + close == close && items == [items[0]];
    } else {
      var more := ItemsText(items[1..]);
      Decodes(items[0], "," + (more + close));
      ItemsDecode(items[1..], rest);
      NextItemStep(first, items[0], more + close, items[1..], rest);
      Associate(first, "," + more, close);
      Associate(",", more, close);
      assert items == [items[0]] + items[1..];
    }
  }

  /** The named members, collected in the parser's order. */
  ghost function Select(m: map<string, Json>, names: seq<string>): (r: map<string, Json>)
    requires names != [] && forall k :: k in names ==> k in m
    ensures forall k :: k in r <==> k in names
    ensures forall k :: k in r ==> r[k] == m[k]
  {
    if |names| == 1 then map[names[0] := m[names[0]]]
    else Select(m, names[1..])[names[0] := m[names[0]]]
  }

  lemma MemberNamesDistinct(m: map<string, Json>)
    ensures forall i, j :: 0 <= i < j < |MemberNames(m)| ==> MemberNames(m)[i] != MemberNames(m)[j]
  {
    var names := MemberNames(m);
    forall i, j | 0 <= i < j < |names| ensures names[i] != names[j] { LessIrreflexive(Utf16(names[i])); }
  }

  lemma SelectAll(m: map<string, Json>, names: seq<string>)
    requires names != [] && forall k :: k in names <==> k in m
    ensures Select(m, names) == m
  {
  }

  lemma {:induction false} ObjectDecodes(v: Json, rest: string)
    requires v.Obj?
    ensures ParseObject(JsonText(v) + rest) == Some((v, rest))
    decreases v, 1
  {
    var names := MemberNames(v.members);
    if names == [] {
      assert forall k :: k in v.members ==> k in names;
      assert v.members == map[];
      EmptyObjectStep(rest);
    } else {
      MemberNamesDistinct(v.members);
      MembersDecode(v, names, rest);
      SelectAll(v.members, names);
      ObjectStep(MembersText(v, names), v.members, rest);
    }
  }

  /** Parsing the first of several members hands the rest of the text on unchanged. */
  lemma {:induction false} MemberDecodes(name: string, value: Json, more: string, close: string)
    requires more + close != "" && !StartsWithDigit(more + close)
    requires ParseValue(JsonText(value) + (more + close)) == Some((value, more + close))
    ensures var text := StringText(name) + (":" + (JsonText(value) + more));
      text[0] == '"' && ParseMembers(text + close) == ParseMoreMembers(name, value, more + close)
  {
    var text := JsonText(value);
    Associate(StringText(name), ":" + (text + more), close);
    Associate(":", text + more, close);
    Associate(text, more, close);
    QuotedDecodes(name, ":" + (text + (more + close)));
    MemberStep(StringText(name), name, text, value, more + close);
  }

  lemma {:induction false} MembersDecode(v: Json, names: seq<string>, rest: string)
    requires v.Obj? && names != [] && forall k :: k in names ==> k in v.members
    requires forall i, j :: 0 <= i < j < |names| ==> names[i] != names[j]
    ensures MembersText(v, names) != "" && MembersText(v, names)[0] == '"'
    ensures ParseMembers(MembersText(v, names) + ("}" + rest)) == Some((Select(v.members, names), rest))
    decreases v, 0, |names|
  {
    var name, value, close := names[0], v.members[names[0]], "}" + rest;
    if |names| == 1 {
      assert "" + close == close;
      Decodes(value, close);
      MemberDecodes(name, value, "", close);
      LastMemberStep(name, value, rest);
    } else {
      var more := "," + MembersText(v, names[1..]);
      var tail := MembersText(v, names[1..]) + close;
      Associate(",", MembersText(v, names[1..]), close);
      Decodes(value, more + close);
      MemberDecodes(name, value, more, close);
      MembersDecode(v, names[1..], rest);
      NextMemberStep(name, value, tail, Select(v.members, names[1..]), rest);
    }
  }

  /** Equal text means equal values, also when more text follows each. */
  lemma TextInjective(v: Json, w: Json, restV: string, restW: string)
    requires !StartsWithDigit(restV) && !StartsWithDigit(restW)
    requires JsonText(v) + restV == JsonText(w) + restW
    ensures v == w && restV == restW
  {
    Decodes(v, restV);
    Decodes(w, restW);
  }

  // ---- bytes, digests and content ids ----

  /** Every integer lies in the safe range of RFC 8785. */
  predicate Safe(v: Json) {
    match v
    case Num(n) => -MAX_SAFE_INTEGER <= n <= MAX_SAFE_INTEGER
    case Arr(items) => forall w :: w in items ==> Safe(w)
    case Obj(m) => forall k :: k in m ==> Safe(m[k])
    case _ => true
  }

  function Bytes(v: Json): seq<Byte> {
    Utf8(JsonText(v))
  }

  datatype UnsafeInteger = UnsafeInteger

  /** `canonical_json`: the bytes, or the error raised for an unsafe integer. */
  function CanonicalJson(v: Json): Result<seq<Byte>, UnsafeInteger> {
    if Safe(v) then Success(Bytes(v)) else Failure(UnsafeInteger)
  }

  /** Canonical bytes exist exactly for safe values and determine them. */
  lemma CanonicalJsonInjective(v: Json, w: Json)
    ensures CanonicalJson(v).Success? <==> Safe(v)
    ensures CanonicalJson(v).Success? && CanonicalJson(v) == CanonicalJson(w) ==> v == w
  {
    if CanonicalJson(v).Success? && CanonicalJson(v) == CanonicalJson(w) { BytesInjective(v, w); }
  }

  lemma BytesInjective(v: Json, w: Json)
    requires Bytes(v) == Bytes(w)
    ensures v == w
  {
    Utf8Injective(JsonText(v), JsonText(w));
    assert JsonText(v) + "" == JsonText(v) && JsonText(w) + "" == JsonText(w);
    TextInjective(v, w, "", "");
  }

  /** SHA-256 in hexadecimal, known only to be a function of the bytes. */
  type Sha256 = seq<Byte> -> string

  ghost predicate CollisionFree(sha256: Sha256) {
    forall a, b :: sha256(a) == sha256(b) ==> a == b
  }

  /** The hash of a document: of its canonical bytes. The other modules work with any such function. */
  type Hash = Json -> string

  function CanonicalHash(sha256: Sha256): Hash {
    (v: Json) => sha256(Bytes(v))
  }

  ghost predicate Injective(hash: Hash) {
    forall v, w :: hash(v) == hash(w) ==> v == w
  }

  /** What the digest arguments of the whole repository rest on: hashing canonical text loses nothing. */
  lemma CanonicalHashInjective(sha256: Sha256)
    requires CollisionFree(sha256)
    ensures Injective(CanonicalHash(sha256))
  {
    var hash := CanonicalHash(sha256);
    forall v, w | hash(v) == hash(w) ensures v == w {
      assert hash(v) == sha256(Bytes(v)) && hash(w) == sha256(Bytes(w));
      BytesInjective(v, w);
    }
  }

  function Digest(hash: Hash, v: Json): string {
    "sha256:" + hash(v)
  }

  function ContentId(hash: Hash, prefix: string, v: Json): string {
    prefix + ":" + hash(v)
  }

  lemma DigestInjective(hash: Hash, v: Json, w: Json)
    requires Injective(hash) && Digest(hash, v) == Digest(hash, w)
    ensures v == w
  {
    assert hash(v) == Digest(hash, v)[7..] == Digest(hash, w)[7..] == hash(w);
  }

  lemma ContentIdInjective(hash: Hash, prefix: string, v: Json, w: Json)
    requires Injective(hash) && ContentId(hash, prefix, v) == ContentId(hash, prefix, w)
    ensures v == w
  {
    var n := |prefix| + 1;
    assert hash(v) == ContentId(hash, prefix, v)[n..] == ContentId(hash, prefix, w)[n..] == hash(w);
  }
}
